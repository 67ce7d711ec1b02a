/** The release verifier: its report is coherent on every directory. */
module ReleaseVerify {
  import opened Text
  import opened Release
  import Paths

  // ----- what a clean release is -----

  /** The artifact names met so far; one with a bad path is not remembered. */
  function SeenAfter(artifacts: seq<Artifact>): set<string> {
    if artifacts == [] then {}
    else
      var n := |artifacts| - 1;
      SeenAfter(artifacts[..n]) + if PathProblem(artifacts[n].path).None? then {artifacts[n].name} else {}
  }

  function ItemKeys(items: seq<Item>): set<string> {
    (set i | i in items :: i.path) + (set i | i in items :: i.name)
  }

  function ArtifactKeys(a: Artifact, dir: Directory): set<string> {
    {a.path, a.name} + if Readable(a, dir) then ItemKeys(a.attestations) else {}
  }

  /** The checksum keys that the manifest accounts for. */
  function ArtifactsKeys(artifacts: seq<Artifact>, dir: Directory): set<string> {
    if artifacts == [] then {}
    else ArtifactsKeys(artifacts[..|artifacts| - 1], dir) + ArtifactKeys(artifacts[|artifacts| - 1], dir)
  }

  function ManifestKeys(m: Manifest, dir: Directory): set<string> {
    ArtifactsKeys(m.artifacts, dir) + ItemKeys(m.supplementals)
  }

  predicate ArtifactClean(
    a: Artifact, seen: set<string>, m: Manifest, dir: Directory, checksums: map<string, string>, o: Outside)
  {
    ArtifactProblems(a, seen, m, dir, checksums, o) == [] && ListProblems(a.attestations, dir, checksums, o) == []
  }

  predicate ArtifactsClean(
    artifacts: seq<Artifact>, m: Manifest, dir: Directory, checksums: map<string, string>, o: Outside)
  {
    artifacts == [] ||
    (var n := |artifacts| - 1;
     ArtifactsClean(artifacts[..n], m, dir, checksums, o)
     && ArtifactClean(artifacts[n], SeenAfter(artifacts[..n]), m, dir, checksums, o))
  }

  predicate SignatureAccepted(dir: Directory, o: Outside)
    requires o.names.manifest in dir
  {
    o.signatureOk(dir[o.names.manifest], if o.names.signature in dir then Some(dir[o.names.signature]) else None)
  }

  function ChecksumsOf(text: string): Option<map<string, string>> {
    ParseLines(Split(TrimSpace(text), '\n'))
  }

  /** The directory holds a manifest and a checksum file that can be read. */
  predicate Legible(dir: Directory, o: Outside) {
    && o.names.manifest in dir && o.decode(dir[o.names.manifest]).Some?
    && o.names.sums in dir && ChecksumsOf(dir[o.names.sums]).Some?
  }

  /** Everything that the manifest says is true of the directory. */
  predicate Clean(dir: Directory, key: bool, o: Outside)
    requires Legible(dir, o)
  {
    var m, checksums := o.decode(dir[o.names.manifest]).value, ChecksumsOf(dir[o.names.sums]).value;
    && (key ==> SignatureAccepted(dir, o))
    && ArtifactsClean(m.artifacts, m, dir, checksums, o)
    && ListProblems(m.supplementals, dir, checksums, o) == []
    && checksums.Keys <= ManifestKeys(m, dir)
  }

  // ----- the verifier -----

  datatype FinalReport = FinalReport(
    verified: bool,
    problems: seq<Problem>,
    artifacts: seq<ArtifactReport>,
    supplementals: seq<ItemReport>)

  datatype ReadError = ManifestUnreadable | ChecksumsUnreadable

  predicate AllArtifactsCoherent(rs: seq<ArtifactReport>) {
    forall i :: 0 <= i < |rs| ==> ArtifactCoherent(rs[i])
  }

  /** Verified exactly when there are no problems, for the whole report and for every part. */
  predicate Coherent(r: FinalReport) {
    (r.verified <==> r.problems == []) && AllArtifactsCoherent(r.artifacts) && AllCoherent(r.supplementals)
  }

  lemma {:induction false} AppendedEmpty(before: seq<Problem>, own: seq<Problem>, more: seq<Problem>)
    ensures before + own + more == [] <==> before == [] && own == [] && more == []
  {
    assert |before + own + more| == |before| + |own| + |more|;
  }

  lemma {:induction false} ArtifactsSnoc(
    artifacts: seq<Artifact>, i: nat, m: Manifest, dir: Directory, checksums: map<string, string>, o: Outside)
    requires i < |artifacts|
    ensures ArtifactsClean(artifacts[..i + 1], m, dir, checksums, o) <==>
            ArtifactsClean(artifacts[..i], m, dir, checksums, o)
            && ArtifactClean(artifacts[i], SeenAfter(artifacts[..i]), m, dir, checksums, o)
    ensures SeenAfter(artifacts[..i + 1]) ==
            SeenAfter(artifacts[..i]) + if PathProblem(artifacts[i].path).None? then {artifacts[i].name} else {}
    ensures ArtifactsKeys(artifacts[..i + 1], dir) == ArtifactsKeys(artifacts[..i], dir) + ArtifactKeys(artifacts[i], dir)
  {
    assert artifacts[..i + 1][..i] == artifacts[..i];
  }

  lemma {:induction false} CoherentSnoc(rs: seq<ArtifactReport>, r: ArtifactReport)
    requires AllArtifactsCoherent(rs) && ArtifactCoherent(r)
    ensures AllArtifactsCoherent(rs + [r])
  {
  }

  /** One report per artifact, in order. */
  predicate ArtifactsTold(
    rs: seq<ArtifactReport>, artifacts: seq<Artifact>, m: Manifest, dir: Directory, checksums: map<string, string>, o: Outside)
  {
    && |rs| <= |artifacts|
    && forall i :: 0 <= i < |rs| ==> ArtifactTold(rs[i], artifacts[i], SeenAfter(artifacts[..i]), m, dir, checksums, o)
  }

  /** A problem of the artifact or of one of its attestations. */
  predicate ArtifactHas(
    p: Problem, a: Artifact, seen: set<string>, m: Manifest, dir: Directory, checksums: map<string, string>, o: Outside)
  {
    || p in ArtifactProblems(a, seen, m, dir, checksums, o)
    || (Readable(a, dir) && p in ListProblems(a.attestations, dir, checksums, o))
  }

  predicate ArtifactsHave(
    p: Problem, artifacts: seq<Artifact>, m: Manifest, dir: Directory, checksums: map<string, string>, o: Outside)
  {
    exists i :: 0 <= i < |artifacts| && ArtifactHas(p, artifacts[i], SeenAfter(artifacts[..i]), m, dir, checksums, o)
  }

  /** What the report of a release has to name. */
  predicate ReleaseHas(
    p: Problem, m: Manifest, dir: Directory, checksums: map<string, string>, key: bool, o: Outside)
    requires o.names.manifest in dir
  {
    || (key && !SignatureAccepted(dir, o) && p == Problem(BadSignature, ""))
    || ArtifactsHave(p, m.artifacts, m, dir, checksums, o)
    || p in ListProblems(m.supplementals, dir, checksums, o)
    || (p.kind.Unmanifested? && p.name in checksums && p.name !in ManifestKeys(m, dir))
  }

  lemma {:induction false} NothingYet(m: Manifest, dir: Directory, checksums: map<string, string>, o: Outside)
    ensures AllArtifactsCoherent([]) && ArtifactsTold([], m.artifacts, m, dir, checksums, o)
    ensures ArtifactsClean(m.artifacts[..0], m, dir, checksums, o)
    ensures SeenAfter(m.artifacts[..0]) == {} && ArtifactsKeys(m.artifacts[..0], dir) == {}
    ensures forall p :: !ArtifactsHave(p, m.artifacts[..0], m, dir, checksums, o)
  {
  }

  lemma {:induction false} ToldSnoc(
    rs: seq<ArtifactReport>, artifacts: seq<Artifact>, r: ArtifactReport, m: Manifest, dir: Directory, checksums: map<string, string>, o: Outside)
    requires |rs| < |artifacts| && ArtifactsTold(rs, artifacts, m, dir, checksums, o)
    requires ArtifactTold(r, artifacts[|rs|], SeenAfter(artifacts[..|rs|]), m, dir, checksums, o)
    ensures ArtifactsTold(rs + [r], artifacts, m, dir, checksums, o)
  {
    hide ArtifactTold, SeenAfter;
  }

  lemma {:induction false} ArtifactsHaveSnoc(
    artifacts: seq<Artifact>, i: nat, m: Manifest, dir: Directory, checksums: map<string, string>, o: Outside)
    requires i < |artifacts|
    ensures forall p :: ArtifactsHave(p, artifacts[..i + 1], m, dir, checksums, o) <==>
              || ArtifactsHave(p, artifacts[..i], m, dir, checksums, o)
              || ArtifactHas(p, artifacts[i], SeenAfter(artifacts[..i]), m, dir, checksums, o)
  {
    hide ArtifactHas, SeenAfter;
    var before, after := artifacts[..i], artifacts[..i + 1];
    assert forall k :: 0 <= k < i ==> after[k] == before[k] && after[..k] == before[..k];
    assert after[..i] == before && after[i] == artifacts[i];
  }

  method VerifyNext(
    a: Artifact, seen: set<string>, m: Manifest, dir: Directory, checksums: map<string, string>, o: Outside, report: Report)
    returns (r: ArtifactReport)
    requires report.Valid()
    modifies report
    ensures report.Valid() && ArtifactCoherent(r) && ArtifactTold(r, a, seen, m, dir, checksums, o)
    ensures report.problems == [] <==> old(report.problems) == [] && ArtifactClean(a, seen, m, dir, checksums, o)
    ensures forall p :: p in report.problems <==>
              p in old(report.problems) || ArtifactHas(p, a, seen, m, dir, checksums, o)
  {
    r := report.VerifyArtifact(a, seen, m, dir, checksums, o);
    AppendedEmpty(old(report.problems), r.problems, if Readable(a, dir) then ListProblems(a.attestations, dir, checksums, o) else []);
    ReadableWhenClean(a, seen, m, dir, checksums, o);
  }

  method VerifyArtifacts(m: Manifest, dir: Directory, checksums: map<string, string>, o: Outside, report: Report)
    returns (rs: seq<ArtifactReport>, manifested: set<string>)
    requires report.Valid()
    modifies report
    ensures report.Valid() && AllArtifactsCoherent(rs) && |rs| == |m.artifacts|
    ensures ArtifactsTold(rs, m.artifacts, m, dir, checksums, o)
    ensures forall p :: p in report.problems <==>
              p in old(report.problems) || ArtifactsHave(p, m.artifacts, m, dir, checksums, o)
    ensures report.problems == [] <==> old(report.problems) == [] && ArtifactsClean(m.artifacts, m, dir, checksums, o)
    ensures manifested == ArtifactsKeys(m.artifacts, dir)
  {
    rs, manifested := [], {};
    var seen: set<string> := {};
    NothingYet(m, dir, checksums, o);
    hide ArtifactTold, ArtifactHas, ArtifactCoherent, ArtifactClean, ArtifactsTold, ArtifactsHave, ArtifactsClean, SeenAfter,
      ArtifactsKeys, ArtifactKeys, AllArtifactsCoherent;
    for i := 0 to |m.artifacts|
      invariant report.Valid() && AllArtifactsCoherent(rs) && |rs| == i
      invariant ArtifactsTold(rs, m.artifacts, m, dir, checksums, o)
      invariant forall p :: p in report.problems <==>
                  p in old(report.problems) || ArtifactsHave(p, m.artifacts[..i], m, dir, checksums, o)
      invariant report.problems == [] <==>
                old(report.problems) == [] && ArtifactsClean(m.artifacts[..i], m, dir, checksums, o)
      invariant seen == SeenAfter(m.artifacts[..i]) && manifested == ArtifactsKeys(m.artifacts[..i], dir)
    {
      var a := m.artifacts[i];
      ArtifactsSnoc(m.artifacts, i, m, dir, checksums, o);
      ArtifactsHaveSnoc(m.artifacts, i, m, dir, checksums, o);
      var r := VerifyNext(a, seen, m, dir, checksums, o, report);
      CoherentSnoc(rs, r);
      ToldSnoc(rs, m.artifacts, r, m, dir, checksums, o);
      rs := rs + [r];
      manifested := manifested + ArtifactKeys(a, dir);
      if PathProblem(a.path).None? {
        seen := seen + {a.name};
      }
    }
    assert m.artifacts[..|m.artifacts|] == m.artifacts;
  }

  lemma {:induction false} ReadableWhenClean(
    a: Artifact, seen: set<string>, m: Manifest, dir: Directory, checksums: map<string, string>, o: Outside)
    ensures ArtifactProblems(a, seen, m, dir, checksums, o) == [] ==> Readable(a, dir)
  {
  }

  method Verify(dir: Directory, key: bool, o: Outside) returns (r: Result<FinalReport, ReadError>)
    ensures r.Ok? <==> Legible(dir, o)
    ensures r.Err? ==>
              (r.error.ManifestUnreadable? <==> o.names.manifest !in dir || o.decode(dir[o.names.manifest]).None?)
    ensures r.Ok? ==> Coherent(r.value) && (r.value.verified <==> Clean(dir, key, o))
    ensures r.Ok? ==>
              var m, checksums := o.decode(dir[o.names.manifest]).value, ChecksumsOf(dir[o.names.sums]).value;
              && |r.value.artifacts| == |m.artifacts| && ArtifactsTold(r.value.artifacts, m.artifacts, m, dir, checksums, o)
              && ItemsTold(r.value.supplementals, m.supplementals, dir, checksums, o)
              && forall p :: p in r.value.problems <==> ReleaseHas(p, m, dir, checksums, key, o)
  {
    hide ArtifactsTold, ItemsTold, ArtifactsHave, ArtifactsClean, ListProblems, ArtifactsKeys, ItemKeys, AllArtifactsCoherent,
      AllCoherent, AllVerified;
    if o.names.manifest !in dir {
      return Err(ManifestUnreadable);
    }
    var decoded := o.decode(dir[o.names.manifest]);
    if decoded.None? {
      return Err(ManifestUnreadable);
    }
    var m := decoded.value;
    var report := new Report();
    if key {
      var signature := if o.names.signature in dir then Some(dir[o.names.signature]) else None;
      if !o.signatureOk(dir[o.names.manifest], signature) {
        report.Add(Problem(BadSignature, ""));
      }
    }
    if o.names.sums !in dir {
      return Err(ChecksumsUnreadable);
    }
    var parsed := ReadChecksums(dir[o.names.sums]);
    if parsed.None? {
      return Err(ChecksumsUnreadable);
    }
    var checksums := parsed.value;
    var artifacts, manifested := VerifyArtifacts(m, dir, checksums, o, report);
    ghost var before := report.problems;
    var supplementals := report.VerifyItems(m.supplementals, dir, checksums, o);
    manifested := manifested + ItemKeys(m.supplementals);
    AppendedEmpty(before, ListProblems(m.supplementals, dir, checksums, o), []);
    NoteUnmanifested(checksums, manifested, report);
    r := Ok(FinalReport(report.verified, report.problems, artifacts, supplementals));
  }

  method NoteUnmanifested(checksums: map<string, string>, manifested: set<string>, report: Report)
    requires report.Valid()
    modifies report
    ensures report.Valid()
    ensures report.problems == [] <==> old(report.problems) == [] && checksums.Keys <= manifested
    ensures forall p :: p in report.problems <==>
              p in old(report.problems) || (p.kind.Unmanifested? && p.name in checksums && p.name !in manifested)
  {
    var left := checksums.Keys;
    while left != {}
      invariant left <= checksums.Keys && report.Valid()
      invariant report.problems == [] <==> old(report.problems) == [] && checksums.Keys - left <= manifested
      invariant forall p :: p in report.problems <==>
                  || p in old(report.problems)
                  || (p.kind.Unmanifested? && p.name in checksums && p.name !in left && p.name !in manifested)
      decreases |left|
    {
      var path :| path in left;
      left := left - {path};
      if path !in manifested {
        report.Add(Problem(Unmanifested, path));
        assert path in checksums.Keys - left;
      }
      assert checksums.Keys - left == checksums.Keys - (left + {path}) + {path};
    }
    assert checksums.Keys - {} == checksums.Keys;
  }

  // ----- what a clean release means, file by file -----

  /** The path stays inside the directory, and the file there has the recorded digest and size and is listed
      under that digest. */
  predicate FileSound(
    path: string, name: string, sha256: string, size: nat, dir: Directory, checksums: map<string, string>, o: Outside)
  {
    && TrimSpace(path) != "" && !Paths.IsAbs(path)
    && var clean := Paths.Clean(path);
       && clean != "." && clean != ".." && !HasPrefix(clean, "../") && clean in dir
       && o.digest(dir[clean]) == sha256 && |dir[clean]| == size
       && Listed(checksums, path, name) == Some(sha256)
  }

  predicate ItemSound(t: Item, dir: Directory, checksums: map<string, string>, o: Outside) {
    FileSound(t.path, t.name, t.sha256, t.sizeBytes, dir, checksums, o)
  }

  predicate ItemsSound(items: seq<Item>, dir: Directory, checksums: map<string, string>, o: Outside) {
    forall t :: t in items ==> ItemSound(t, dir, checksums, o)
  }

  predicate ArtifactSound(a: Artifact, m: Manifest, dir: Directory, checksums: map<string, string>, o: Outside) {
    && FileSound(a.path, a.name, a.sha256, a.sizeBytes, dir, checksums, o)
    && o.metadataProblems(m, a, dir[Paths.Clean(a.path)]) == 0
    && ItemsSound(a.attestations, dir, checksums, o)
  }

  predicate ArtifactsSound(artifacts: seq<Artifact>, m: Manifest, dir: Directory, checksums: map<string, string>, o: Outside) {
    forall a :: a in artifacts ==> ArtifactSound(a, m, dir, checksums, o)
  }

  function ArtifactNames(artifacts: seq<Artifact>): set<string> {
    set a | a in artifacts :: a.name
  }

  predicate DistinctArtifactNames(artifacts: seq<Artifact>) {
    forall i, j :: 0 <= i < j < |artifacts| ==> artifacts[i].name != artifacts[j].name
  }

  /** Every manifested file is sound, artifact names differ, the signature holds when a key is given, and the
      checksum file lists nothing that the manifest does not. */
  ghost predicate ReleaseSound(m: Manifest, checksums: map<string, string>, dir: Directory, key: bool, o: Outside)
    requires o.names.manifest in dir
  {
    && (key ==> SignatureAccepted(dir, o))
    && ArtifactsSound(m.artifacts, m, dir, checksums, o) && DistinctArtifactNames(m.artifacts)
    && ItemsSound(m.supplementals, dir, checksums, o)
    && (forall p :: p in checksums ==> Accounted(m, p))
  }

  predicate NamesFile(items: seq<Item>, p: string) {
    exists t :: t in items && (p == t.path || p == t.name)
  }

  /** Some manifested file has this path or name. */
  predicate Accounted(m: Manifest, p: string) {
    || NamesFile(m.supplementals, p)
    || exists a :: a in m.artifacts && (p == a.path || p == a.name || NamesFile(a.attestations, p))
  }

  lemma {:induction false} ItemSoundExactly(t: Item, dir: Directory, checksums: map<string, string>, o: Outside)
    ensures ItemProblems(t, dir, checksums, o) == [] <==> ItemSound(t, dir, checksums, o)
  {
  }

  lemma {:induction false} ItemsSoundExactly(items: seq<Item>, dir: Directory, checksums: map<string, string>, o: Outside)
    ensures ListProblems(items, dir, checksums, o) == [] <==> ItemsSound(items, dir, checksums, o)
  {
    if items != [] {
      var n := |items| - 1;
      ItemsSoundExactly(items[..n], dir, checksums, o);
      ItemSoundExactly(items[n], dir, checksums, o);
      assert items == items[..n] + [items[n]];
    }
  }

  lemma {:induction false} ArtifactSoundExactly(
    a: Artifact, seen: set<string>, m: Manifest, dir: Directory, checksums: map<string, string>, o: Outside)
    ensures ArtifactClean(a, seen, m, dir, checksums, o) <==> ArtifactSound(a, m, dir, checksums, o) && a.name !in seen
  {
    ItemsSoundExactly(a.attestations, dir, checksums, o);
    var clean := Paths.Clean(a.path);
    if PathProblem(a.path).None? && clean in dir {
      var own, metadata := ContentProblems(dir[clean], checksums, a.name, a.path, a.sha256, a.sizeBytes, o),
                           Repeat(o.metadataProblems(m, a, dir[clean]), Problem(MetadataMismatch, a.name));
      assert own + metadata == [] <==> own == [] && metadata == [];
    }
  }

  lemma {:induction false} ArtifactsSoundLast(
    artifacts: seq<Artifact>, m: Manifest, dir: Directory, checksums: map<string, string>, o: Outside)
    requires artifacts != []
    ensures var n := |artifacts| - 1;
            ArtifactsSound(artifacts, m, dir, checksums, o) <==>
            ArtifactsSound(artifacts[..n], m, dir, checksums, o) && ArtifactSound(artifacts[n], m, dir, checksums, o)
  {
    hide ArtifactSound;
    assert artifacts == artifacts[..|artifacts| - 1] + [artifacts[|artifacts| - 1]];
  }

  lemma {:induction false} SoundNamesSeen(
    artifacts: seq<Artifact>, m: Manifest, dir: Directory, checksums: map<string, string>, o: Outside)
    requires ArtifactsSound(artifacts, m, dir, checksums, o)
    ensures SeenAfter(artifacts) == ArtifactNames(artifacts)
  {
    if artifacts != [] {
      var n := |artifacts| - 1;
      ArtifactsSoundLast(artifacts, m, dir, checksums, o);
      SoundNamesSeen(artifacts[..n], m, dir, checksums, o);
      assert artifacts == artifacts[..n] + [artifacts[n]];
      assert PathProblem(artifacts[n].path).None?;
      assert ArtifactNames(artifacts) == ArtifactNames(artifacts[..n]) + {artifacts[n].name};
    }
  }

  lemma {:induction false} ArtifactsSoundExactly(
    artifacts: seq<Artifact>, m: Manifest, dir: Directory, checksums: map<string, string>, o: Outside)
    ensures ArtifactsClean(artifacts, m, dir, checksums, o) <==>
            ArtifactsSound(artifacts, m, dir, checksums, o) && DistinctArtifactNames(artifacts)
  {
    hide ArtifactSound, ArtifactClean, SeenAfter, ArtifactNames, ArtifactsSound, DistinctArtifactNames;
    if artifacts == [] {
      NoArtifacts(m, dir, checksums, o);
    } else {
      var n := |artifacts| - 1;
      var front := artifacts[..n];
      ArtifactsSoundExactly(front, m, dir, checksums, o);
      ArtifactSoundExactly(artifacts[n], SeenAfter(front), m, dir, checksums, o);
      ArtifactsSoundLast(artifacts, m, dir, checksums, o);
      LastNameNew(artifacts);
      if ArtifactsSound(front, m, dir, checksums, o) {
        SoundNamesSeen(front, m, dir, checksums, o);
      }
    }
  }

  lemma {:induction false} NoArtifacts(m: Manifest, dir: Directory, checksums: map<string, string>, o: Outside)
    ensures ArtifactsSound([], m, dir, checksums, o) && DistinctArtifactNames([])
  {
  }

  lemma {:induction false} LastNameNew(artifacts: seq<Artifact>)
    requires artifacts != []
    ensures var n := |artifacts| - 1;
            DistinctArtifactNames(artifacts) <==>
            DistinctArtifactNames(artifacts[..n]) && artifacts[n].name !in ArtifactNames(artifacts[..n])
  {
    var n := |artifacts| - 1;
    var front := artifacts[..n];
    assert DistinctArtifactNames(artifacts) ==> forall i :: 0 <= i < n ==> front[i].name != artifacts[n].name;
    assert forall i :: 0 <= i < n ==> front[i] in front && front[i] == artifacts[i];
  }

  lemma {:induction false} KeysExactly(artifacts: seq<Artifact>, dir: Directory, p: string)
    requires forall a :: a in artifacts ==> Readable(a, dir)
    ensures p in ArtifactsKeys(artifacts, dir) <==>
            exists a :: a in artifacts && (p == a.path || p == a.name || NamesFile(a.attestations, p))
  {
    if artifacts != [] {
      var n := |artifacts| - 1;
      KeysExactly(artifacts[..n], dir, p);
      assert artifacts == artifacts[..n] + [artifacts[n]];
    }
  }

  /** The report is free of problems exactly when the release is sound, file by file. */
  lemma {:induction false} CleanExactly(dir: Directory, key: bool, o: Outside)
    requires Legible(dir, o)
    ensures Clean(dir, key, o) <==>
            ReleaseSound(o.decode(dir[o.names.manifest]).value, ChecksumsOf(dir[o.names.sums]).value, dir, key, o)
  {
    var m, checksums := o.decode(dir[o.names.manifest]).value, ChecksumsOf(dir[o.names.sums]).value;
    ArtifactsSoundExactly(m.artifacts, m, dir, checksums, o);
    ItemsSoundExactly(m.supplementals, dir, checksums, o);
    if ArtifactsSound(m.artifacts, m, dir, checksums, o) {
      KeysAccounted(m, dir, checksums, o);
    }
  }

  lemma {:induction false} KeysAccounted(m: Manifest, dir: Directory, checksums: map<string, string>, o: Outside)
    requires ArtifactsSound(m.artifacts, m, dir, checksums, o)
    ensures checksums.Keys <= ManifestKeys(m, dir) <==> forall p :: p in checksums ==> Accounted(m, p)
  {
    assert forall a :: a in m.artifacts ==> ArtifactSound(a, m, dir, checksums, o) && Readable(a, dir);
    forall p ensures p in ManifestKeys(m, dir) <==> Accounted(m, p) {
      KeysExactly(m.artifacts, dir, p);
    }
  }
}
