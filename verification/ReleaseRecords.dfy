/** What the manifest of a release records, field by field, and what an attestation's selector selects. */
module ReleaseRecords {
  import opened Text
  import opened Release
  import opened ReleasePlan

  // ----- selectors -----

  /** The selector says what kind of name it gives. */
  predicate Qualified(selector: string) {
    HasPrefix(selector, "name:") || HasPrefix(selector, "target:") || HasPrefix(selector, "path:")
  }

  lemma {:induction false} CutColonExactly(s: string)
    ensures match CutColon(s)
            case None => ':' !in s
            case Some((before, after)) => ':' !in before && s == before + ":" + after
  {
    if s != "" && s[0] != ':' {
      CutColonExactly(s[1..]);
      assert s == [s[0]] + s[1..];
      match CutColon(s[1..])
      case None =>
      case Some((before, after)) => assert [s[0]] + before + ":" + after == [s[0]] + (before + ":" + after);
    } else if s != "" {
      assert s == "" + ":" + s[1..];
    }
  }

  lemma {:induction false} FirstColonSplits(a: string, x: string, b: string, y: string)
    requires a + ":" + x == b + ":" + y && ':' !in a && ':' !in b
    ensures a == b && x == y
  {
    var s := a + ":" + x;
    assert forall k :: 0 <= k < |a| ==> s[k] == a[k] && a[k] in a;
    assert s == b + ":" + y && forall k :: 0 <= k < |b| ==> s[k] == b[k] && b[k] in b;
    assert s[|a|] == s[|b|] == ':';
    assert a == s[..|a|] && x == s[|a| + 1..] && b == s[..|b|] && y == s[|b| + 1..];
  }

  /** A text that begins with a word and a colon is cut there. */
  lemma {:induction false} CutAtWord(s: string, word: string)
    requires ':' !in word
    ensures HasPrefix(s, word + ":") <==> CutColon(s).Some? && CutColon(s).value.0 == word
    ensures HasPrefix(s, word + ":") ==> CutColon(s).value.1 == s[|word| + 1..]
  {
    CutColonExactly(s);
    if HasPrefix(s, word + ":") {
      var n := |word|;
      assert s[n] == (word + ":")[n] == ':';
      assert ':' in s;
      assert s == word + ":" + s[n + 1..];
      FirstColonSplits(CutColon(s).value.0, CutColon(s).value.1, word, s[n + 1..]);
    }
    if CutColon(s).Some? && CutColon(s).value.0 == word {
      assert s[..|word| + 1] == word + ":";
    }
  }

  /** A selector selects an artifact exactly when it gives its name, target or path as such, or gives its name or target
      without saying which. */
  lemma {:induction false} SelectsExactly(selector: string, a: Artifact)
    ensures Selects(selector, a) <==>
              || selector == "name:" + a.name || selector == "target:" + (a.target.os + "/" + a.target.arch)
              || selector == "path:" + a.path
              || (!Qualified(selector) && (selector == a.name || selector == a.target.os + "/" + a.target.arch))
  {
    CutAtWord(selector, "name");
    CutAtWord(selector, "target");
    CutAtWord(selector, "path");
    assert "name" + ":" == "name:" && "target" + ":" == "target:" && "path" + ":" == "path:";
    Prefixed(selector, "name:", a.name);
    Prefixed(selector, "target:", TargetKey(a.target));
    Prefixed(selector, "path:", a.path);
    WordsDiffer();
    hide CutColon, HasPrefix;
  }

  lemma {:induction false} WordsDiffer()
    ensures "name" != "target" && "name" != "path" && "target" != "path"
  {
    assert "name"[0] != "target"[0] && "name"[0] != "path"[0] && "target"[0] != "path"[0];
  }

  lemma {:induction false} Prefixed(s: string, prefix: string, rest: string)
    ensures s == prefix + rest <==> HasPrefix(s, prefix) && s[|prefix|..] == rest
  {
    if HasPrefix(s, prefix) {
      assert s == prefix + s[|prefix|..];
    }
  }

  // ----- the manifest -----

  /** The binary for a target under its name, with the digest and size of what was built. */
  predicate RecordsBinary(a: Artifact, opts: Options, t: Target, o: Outside) {
    && opts.build(t).Some? && a.target == t && a.path == a.name
    && a.name == "ao-covenant_" + opts.version + "_" + t.os + "_" + t.arch + (if t.os == "windows" then ".exe" else "")
    && a.sha256 == o.digest(opts.build(t).value) && a.sizeBytes == |opts.build(t).value|
  }

  /** A copy of the file of this kind, under its own name, at this path. */
  predicate RecordsCopy(t: Item, kind: string, f: FileSource, path: string, o: Outside) {
    && f.contents.Some? && t.kind == kind && t.name == f.name && t.path == path
    && t.sha256 == o.digest(f.contents.value) && t.sizeBytes == |f.contents.value|
  }

  /** The first artifact that the source's selector selects is the one at position k. */
  predicate AttachesTo(artifacts: seq<Artifact>, s: AttestationSource, k: nat) {
    && k < |artifacts| && Selects(s.selector, artifacts[k])
    && forall j :: 0 <= j < k ==> !Selects(s.selector, artifacts[j])
  }

  /** The positions of exactly the sources that attach to artifact k, ascending. */
  ghost predicate SourcesOf(artifacts: seq<Artifact>, sources: seq<AttestationSource>, k: nat, at: seq<nat>) {
    && (forall i :: 0 <= i < |at| ==> at[i] < |sources| && AttachesTo(artifacts, sources[at[i]], k))
    && (forall i, j :: 0 <= i < j < |at| ==> at[i] < at[j])
    && (forall p :: 0 <= p < |sources| && AttachesTo(artifacts, sources[p], k) ==> p in at)
  }

  /** One record per attestation that selects the artifact, in order, at the artifact's name, a dot and the file's name. */
  ghost predicate RecordsAttestations(
    items: seq<Item>, artifacts: seq<Artifact>, sources: seq<AttestationSource>, k: nat, o: Outside)
    requires k < |artifacts|
  {
    exists at :: SourcesOf(artifacts, sources, k, at) && |at| == |items| && forall i :: 0 <= i < |items| ==>
      RecordsCopy(items[i], sources[at[i]].kind, sources[at[i]].file,
                  artifacts[k].name + "." + sources[at[i]].file.name, o)
  }

  lemma {:induction false} AttachesExactly(artifacts: seq<Artifact>, s: AttestationSource, k: nat)
    ensures FirstMatch(artifacts, s.selector) == Some(k) <==> AttachesTo(artifacts, s, k)
  {
    hide Selects;
  }

  lemma {:induction false} AttestationsRecorded(artifacts: seq<Artifact>, sources: seq<AttestationSource>, k: nat, o: Outside)
    returns (at: seq<nat>)
    requires AllAttachable(artifacts, sources) && k < |artifacts|
    ensures var items := AttestationsFor(artifacts, sources, k, o);
            SourcesOf(artifacts, sources, k, at) && |at| == |items| && forall i :: 0 <= i < |items| ==>
              RecordsCopy(items[i], sources[at[i]].kind, sources[at[i]].file,
                          artifacts[k].name + "." + sources[at[i]].file.name, o)
  {
    hide FirstMatch, AttachesTo, Usable;
    at := [];
    if sources != [] {
      var n := |sources| - 1;
      at := AttestationsRecorded(artifacts, sources[..n], k, o);
      AttachesExactly(artifacts, sources[n], k);
      assert forall i :: 0 <= i < n ==> sources[..n][i] == sources[i];
      if AttachesTo(artifacts, sources[n], k) {
        OneCopy(artifacts, sources[n], k, o);
        var before := at;
        at := at + [n];
        SourcesSnoc(artifacts, sources, k, before);
      } else {
        SourcesSkip(artifacts, sources, k, at);
      }
    }
  }

  lemma {:induction false} SourcesSnoc(artifacts: seq<Artifact>, sources: seq<AttestationSource>, k: nat, at: seq<nat>)
    requires sources != [] && SourcesOf(artifacts, sources[..|sources| - 1], k, at)
    requires AttachesTo(artifacts, sources[|sources| - 1], k)
    ensures SourcesOf(artifacts, sources, k, at + [|sources| - 1])
  {
    hide AttachesTo;
    var n := |sources| - 1;
    assert forall i :: 0 <= i < n ==> sources[..n][i] == sources[i];
    forall p | 0 <= p < |sources| && AttachesTo(artifacts, sources[p], k) ensures p in at + [n] {
      if p < n {
        assert p in at;
      } else {
        assert (at + [n])[|at|] == p;
      }
    }
  }

  lemma {:induction false} SourcesSkip(artifacts: seq<Artifact>, sources: seq<AttestationSource>, k: nat, at: seq<nat>)
    requires sources != [] && SourcesOf(artifacts, sources[..|sources| - 1], k, at)
    requires !AttachesTo(artifacts, sources[|sources| - 1], k)
    ensures SourcesOf(artifacts, sources, k, at)
  {
    hide AttachesTo;
    var n := |sources| - 1;
    assert forall i :: 0 <= i < n ==> sources[..n][i] == sources[i];
  }

  lemma {:induction false} OneCopy(artifacts: seq<Artifact>, s: AttestationSource, k: nat, o: Outside)
    requires Attachable(artifacts, s) && AttachesTo(artifacts, s, k)
    ensures RecordsCopy(Attestation(artifacts, s, o), s.kind, s.file, artifacts[k].name + "." + s.file.name, o)
  {
    AttachesExactly(artifacts, s, k);
    hide FirstMatch, AttachesTo;
  }

  /** The binaries of the targets, in order. */
  ghost predicate RecordsBinaries(artifacts: seq<Artifact>, opts: Options, o: Outside) {
    |artifacts| == |opts.targets| && forall i :: 0 <= i < |artifacts| ==> RecordsBinary(artifacts[i], opts, opts.targets[i], o)
  }

  /** The SBOMs and then the provenance files, each under its own name. */
  ghost predicate RecordsSupplements(items: seq<Item>, opts: Options, o: Outside) {
    && |items| == |opts.sboms| + |opts.provenance|
    && (forall i :: 0 <= i < |opts.sboms| ==> RecordsCopy(items[i], "sbom", opts.sboms[i], opts.sboms[i].name, o))
    && forall i :: 0 <= i < |opts.provenance| ==>
         RecordsCopy(items[|opts.sboms| + i], "provenance", opts.provenance[i], opts.provenance[i].name, o)
  }

  /** The manifest of a release names its version, commit and date, and records every binary with the attestations that
      select it, every SBOM and every provenance file. */
  lemma {:induction false} ManifestTells(opts: Options, o: Outside)
    requires Gatherable(opts, o)
    ensures var m := ManifestOf(opts, o);
            && m.version == opts.version && m.commit == opts.commit && m.date == opts.date
            && RecordsBinaries(m.artifacts, opts, o) && RecordsSupplements(m.supplementals, opts, o)
            && forall k :: 0 <= k < |m.artifacts| ==>
                 RecordsAttestations(m.artifacts[k].attestations, Binaries(opts, o), opts.attestations, k, o)
  {
    var m, binaries := ManifestOf(opts, o), Binaries(opts, o);
    BinariesTell(opts, o);
    SupplementsTell(opts, o);
    hide RecordsBinary, RecordsCopy, AttachesTo, Binaries, Supplements, NewNames, AllAttachable, Attachable, AllUsable;
    forall k: nat | k < |m.artifacts|
      ensures RecordsAttestations(m.artifacts[k].attestations, binaries, opts.attestations, k, o)
    {
      var at := AttestationsRecorded(binaries, opts.attestations, k, o);
    }
  }

  lemma {:induction false} BinariesTell(opts: Options, o: Outside)
    requires Gatherable(opts, o)
    ensures RecordsBinaries(ManifestOf(opts, o).artifacts, opts, o)
  {
    var artifacts, binaries := ManifestOf(opts, o).artifacts, Binaries(opts, o);
    hide AttestationsFor, NewNames, AllAttachable, AllUsable, Supplements, ReleaseNames;
    forall i | 0 <= i < |artifacts| ensures RecordsBinary(artifacts[i], opts, opts.targets[i], o) {
      assert artifacts[i] == binaries[i].(attestations := artifacts[i].attestations);
      assert opts.targets[i] in opts.targets && binaries[i] == Binary(opts, opts.targets[i], o);
    }
  }

  lemma {:induction false} SupplementsTell(opts: Options, o: Outside)
    requires Gatherable(opts, o)
    ensures RecordsSupplements(ManifestOf(opts, o).supplementals, opts, o)
  {
    hide AttestationsFor, NewNames, AllAttachable, WithAttestations, Binaries, ReleaseNames;
    assert forall i :: 0 <= i < |opts.sboms| ==> opts.sboms[i] in opts.sboms;
    assert forall i :: 0 <= i < |opts.provenance| ==> opts.provenance[i] in opts.provenance;
  }
}
