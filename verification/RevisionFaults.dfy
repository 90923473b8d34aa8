/**
 What the check of integrations/zotero_lightrag/validate_revision.py says of any directory at all: when it passes, and
 that every fault it reports is there.
 */
module RevisionFaults {
  import opened Outcomes
  import opened Publication
  import opened Validation

  // A manifest that seals itself: it holds its own hash, taken without the two seal keys, and the revision of that hash.
  ghost predicate Sealing(env: Env, whole: Dict) {
    && "manifest_sha256" in whole && "corpus_revision" in whole
    && var hash := env.hash(env.encode(whole - {"manifest_sha256", "corpus_revision"}));
       && whole["manifest_sha256"] == Text(hash)
       && whole["corpus_revision"] == Text("corpus_" + if |hash| < 20 then hash else hash[..20])
  }

  ghost predicate AsDescribed(env: Env, directory: Directory, name: string, expected: Artifact) {
    name in directory && env.size(directory[name]) == expected.size && env.hash(directory[name]) == expected.sha256
  }

  ghost predicate ArtifactsHold(env: Env, directory: Directory, whole: Dict) {
    "artifacts" in whole ==>
      && whole["artifacts"].Artifacts?
      && var entries := whole["artifacts"].entries;
         forall i :: 0 <= i < |entries| ==> AsDescribed(env, directory, entries[i].0, entries[i].1)
  }

  ghost predicate RowsHold(env: Env, rows: seq<Doc>, provenance: Provenance, whole: Dict) {
    && "counts" in whole && whole["counts"].Counts? && |rows| == whole["counts"].documents
    && (forall i :: 0 <= i < |rows| ==> rows[i].source in provenance)
    && (forall i, j :: 0 <= i < j < |rows| ==> env.basename(rows[i].source) != env.basename(rows[j].source))
  }

  ghost predicate Passes(env: Env, directory: Directory, whole: Dict, rows: seq<Doc>, provenance: Provenance) {
    && {"manifest.json", "documents.jsonl", "provenance.json"} <= directory.Keys
    && env.decode(directory["manifest.json"]) == Some(whole)
    && DecodeRows(env, Lines(directory["documents.jsonl"])) == Some(rows)
    && env.decodeProvenance(directory["provenance.json"]) == Some(provenance)
    && Sealing(env, whole) && ArtifactsHold(env, directory, whole) && RowsHold(env, rows, provenance, whole)
  }

  // The two seal keys are no others.
  lemma KeysDiffer()
    ensures HASH_KEY == "manifest_sha256" && REVISION_KEY == "corpus_revision" && ARTIFACTS_KEY == "artifacts" && COUNTS_KEY == "counts"
    ensures ARTIFACTS_KEY !in {HASH_KEY, REVISION_KEY} && COUNTS_KEY !in {HASH_KEY, REVISION_KEY}
    ensures DOCUMENTS == "documents.jsonl" && PROVENANCE == "provenance.json" && MANIFEST == "manifest.json"
  {
    assert |ARTIFACTS_KEY| == 9 && |COUNTS_KEY| == 6 && |HASH_KEY| == 15 && |REVISION_KEY| == 15;
  }

  lemma ArtifactsHoldHere(env: Env, directory: Directory, whole: Dict)
    requires HASH_KEY in whole && REVISION_KEY in whole
    ensures CheckArtifacts(env, directory, whole - {HASH_KEY, REVISION_KEY}).None? <==> ArtifactsHold(env, directory, whole)
  {
    KeysDiffer();
    if ARTIFACTS_KEY in whole && whole[ARTIFACTS_KEY].Artifacts? {
      var entries := whole[ARTIFACTS_KEY].entries;
      ArtifactsHoldIff(env, directory, entries);
      assert forall i :: 0 <= i < |entries| ==>
        (entries[i].0 in directory && Describe(env, directory[entries[i].0]) == entries[i].1 <==> AsDescribed(env, directory, entries[i].0, entries[i].1));
    }
  }

  lemma SealedIff(env: Env, directory: Directory, whole: Dict, hash: string)
    requires MANIFEST in directory && env.decode(directory[MANIFEST]) == Some(whole)
    requires hash == env.hash(env.encode(whole - {HASH_KEY, REVISION_KEY}))
    ensures CheckManifest(env, directory) == Ok((whole - {HASH_KEY, REVISION_KEY}, hash)) <==> Sealing(env, whole) && ArtifactsHold(env, directory, whole)
    ensures CheckManifest(env, directory).Ok? ==> CheckManifest(env, directory) == Ok((whole - {HASH_KEY, REVISION_KEY}, hash))
  {
    KeysDiffer();
    if HASH_KEY in whole && REVISION_KEY in whole {
      ArtifactsHoldHere(env, directory, whole);
    }
  }

  // A directory passes exactly when its manifest seals itself, its artifacts are there as described, and its rows are as
  // many as counted, all with provenance and under different base names; the summary is of those.
  lemma DirectoryPassesIff(env: Env, directory: Directory)
    ensures Validate(env, directory).Ok? <==> exists whole, rows, provenance :: Passes(env, directory, whole, rows, provenance)
  {
    KeysDiffer();
    if Validate(env, directory).Ok? {
      var whole, rows, provenance := env.decode(directory[MANIFEST]).value, ReadRows(env, directory).value, ReadProvenance(env, directory).value;
      SealedIff(env, directory, whole, env.hash(env.encode(whole - {HASH_KEY, REVISION_KEY})));
      assert Passes(env, directory, whole, rows, provenance);
    }
    forall whole, rows, provenance | Passes(env, directory, whole, rows, provenance)
      ensures Validate(env, directory).Ok?
    {
      PassedSummary(env, directory, whole, rows, provenance);
    }
  }

  lemma PassedSummary(env: Env, directory: Directory, whole: Dict, rows: seq<Doc>, provenance: Provenance)
    requires Passes(env, directory, whole, rows, provenance)
    ensures var hash := env.hash(env.encode(whole - {"manifest_sha256", "corpus_revision"}));
            Validate(env, directory) == Ok(Summary("corpus_" + if |hash| < 20 then hash else hash[..20], hash, |rows|, |provenance|))
  {
    KeysDiffer();
    SealedIff(env, directory, whole, env.hash(env.encode(whole - {HASH_KEY, REVISION_KEY})));
  }

  // ----- Faults -----

  // What each fault says of the directory.
  ghost predicate IsThere(env: Env, directory: Directory, fault: Fault) {
    match fault
    case NoManifest => "manifest.json" !in directory
    case BadManifest => "manifest.json" in directory && env.decode(directory["manifest.json"]).None?
    case BadDocuments => "documents.jsonl" in directory ==> DecodeRows(env, Lines(directory["documents.jsonl"])).None?
    case BadProvenance => "provenance.json" in directory ==> env.decodeProvenance(directory["provenance.json"]).None?
    case _ =>
      && "manifest.json" in directory && env.decode(directory["manifest.json"]).Some?
      && FaultyManifest(env, directory, env.decode(directory["manifest.json"]).value, fault)
  }

  ghost predicate FaultyManifest(env: Env, directory: Directory, whole: Dict, fault: Fault) {
    match fault
    case FieldMissing(key) => key in {"manifest_sha256", "corpus_revision"} && key !in whole
    case HashMismatch => "manifest_sha256" in whole && whole["manifest_sha256"] != Text(HashWithoutSeal(env, whole))
    case RevisionMismatch => "corpus_revision" in whole && whole["corpus_revision"] != Text(RevisionName(HashWithoutSeal(env, whole)))
    case NoArtifacts => "artifacts" in whole && !whole["artifacts"].Artifacts?
    case MissingArtifact(name) => name !in directory && exists a :: Describes(whole, name, a)
    case SizeMismatch(name) => name in directory && exists a :: Describes(whole, name, a) && env.size(directory[name]) != a.size
    case DigestMismatch(name) => name in directory && exists a :: Describes(whole, name, a) && env.hash(directory[name]) != a.sha256
    case BadCounts => "counts" in whole ==> !whole["counts"].Counts?
    case _ => FaultyRows(env, directory, whole, fault)
  }

  function HashWithoutSeal(env: Env, whole: Dict): string {
    env.hash(env.encode(whole - {"manifest_sha256", "corpus_revision"}))
  }

  ghost predicate Describes(whole: Dict, name: string, a: Artifact) {
    "artifacts" in whole && whole["artifacts"].Artifacts? && (name, a) in whole["artifacts"].entries
  }

  ghost predicate FaultyRows(env: Env, directory: Directory, whole: Dict, fault: Fault) {
    && "documents.jsonl" in directory && DecodeRows(env, Lines(directory["documents.jsonl"])).Some?
    && var rows := DecodeRows(env, Lines(directory["documents.jsonl"])).value;
       match fault
       case CountMismatch => "counts" in whole && whole["counts"].Counts? && |rows| != whole["counts"].documents
       case ProvenanceMissing =>
         && "provenance.json" in directory && env.decodeProvenance(directory["provenance.json"]).Some?
         && exists i :: 0 <= i < |rows| && rows[i].source !in env.decodeProvenance(directory["provenance.json"]).value
       case SharedBasename => exists i, j :: 0 <= i < j < |rows| && env.basename(rows[i].source) == env.basename(rows[j].source)
       case _ => false
  }

  lemma {:induction false} ArtifactFaultIsThere(env: Env, directory: Directory, entries: seq<(string, Artifact)>) returns (i: nat)
    requires FirstArtifactFault(env, directory, entries).Some?
    ensures i < |entries|
    ensures var (name, a) := entries[i];
            match FirstArtifactFault(env, directory, entries).value
            case MissingArtifact(n) => n == name && name !in directory
            case SizeMismatch(n) => n == name && name in directory && env.size(directory[name]) != a.size
            case DigestMismatch(n) => n == name && name in directory && env.hash(directory[name]) != a.sha256
            case _ => false
  {
    if ArtifactFault(env, directory, entries[0].0, entries[0].1).Some? {
      i := 0;
    } else {
      var k := ArtifactFaultIsThere(env, directory, entries[1..]);
      i := k + 1;
    }
  }

  lemma ManifestFaultIsThere(env: Env, directory: Directory, fault: Fault)
    requires CheckManifest(env, directory) == Err(fault)
    ensures IsThere(env, directory, fault)
  {
    KeysDiffer();
    if MANIFEST in directory && env.decode(directory[MANIFEST]).Some? {
      var whole := env.decode(directory[MANIFEST]).value;
      var manifest := whole - {HASH_KEY, REVISION_KEY};
      if CheckArtifacts(env, directory, manifest) == Some(fault) && ARTIFACTS_KEY in manifest && manifest[ARTIFACTS_KEY].Artifacts? {
        var entries := whole[ARTIFACTS_KEY].entries;
        var i := ArtifactFaultIsThere(env, directory, entries);
        assert entries[i] in entries && Describes(whole, entries[i].0, entries[i].1);
      }
    }
  }

  // Every fault that is reported is there.
  lemma ReportedFaultIsThere(env: Env, directory: Directory, fault: Fault)
    requires Validate(env, directory) == Err(fault)
    ensures IsThere(env, directory, fault)
  {
    KeysDiffer();
    match CheckManifest(env, directory)
    case Err(_) => ManifestFaultIsThere(env, directory, fault);
    case Ok((manifest, hash)) =>
      if ReadRows(env, directory).Some? && ReadProvenance(env, directory).Some? {
        var rows, provenance := ReadRows(env, directory).value, ReadProvenance(env, directory).value;
        ContentsFaultIsThere(env, directory, manifest, rows, provenance, fault);
      }
  }

  lemma ContentsFaultIsThere(env: Env, directory: Directory, manifest: Dict, rows: seq<Doc>, provenance: Provenance, fault: Fault)
    requires MANIFEST in directory && env.decode(directory[MANIFEST]).Some?
    requires manifest == env.decode(directory[MANIFEST]).value - {HASH_KEY, REVISION_KEY}
    requires ReadRows(env, directory) == Some(rows) && ReadProvenance(env, directory) == Some(provenance)
    requires CheckContents(env, manifest, rows, provenance) == Some(fault)
    ensures IsThere(env, directory, fault)
  {
    KeysDiffer();
  }
}
