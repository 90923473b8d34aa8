/**
 Checking one revision directory, from integrations/zotero_lightrag/validate_revision.py, and what publishing
 guarantees: which payloads give directories that pass, and that revisions never change once they are there.
 */
module Validation {
  import opened Outcomes
  import opened Publication

  datatype Fault =
    | NoManifest
    | BadManifest
    | FieldMissing(key: string)
    | HashMismatch
    | RevisionMismatch
    | NoArtifacts
    | MissingArtifact(name: string)
    | SizeMismatch(name: string)
    | DigestMismatch(name: string)
    | BadDocuments
    | BadProvenance
    | BadCounts
    | CountMismatch
    | ProvenanceMissing
    | SharedBasename

  datatype Summary = Summary(revision: string, hash: string, documents: nat, provenance: nat)

  // ----- Reading rows -----

  function BreakIndex(s: string): (i: nat)
    ensures i <= |s| && forall j :: 0 <= j < i ==> !IsLineBreak(s[j])
    ensures i < |s| ==> IsLineBreak(s[i])
  {
    if s == "" || IsLineBreak(s[0]) then 0 else 1 + BreakIndex(s[1..])
  }

  // The lines of a text that are not empty.
  function Lines(s: string): seq<string>
    decreases |s|
  {
    if s == "" then []
    else
      var i := BreakIndex(s);
      (if i == 0 then [] else [s[..i]]) + if i < |s| then Lines(s[i + 1..]) else []
  }

  function DecodeRows(env: Env, lines: seq<string>): Option<seq<Doc>> {
    if lines == [] then Some([])
    else
      match (env.decodeRow(lines[0]), DecodeRows(env, lines[1..]))
      case (Some(row), Some(rows)) => Some([row] + rows)
      case _ => None
  }

  // ----- The check -----

  function ArtifactFault(env: Env, directory: Directory, name: string, expected: Artifact): Option<Fault> {
    if name !in directory then Some(MissingArtifact(name))
    else if env.size(directory[name]) != expected.size then Some(SizeMismatch(name))
    else if env.hash(directory[name]) != expected.sha256 then Some(DigestMismatch(name))
    else None
  }

  // The first artifact that is not as described.
  function FirstArtifactFault(env: Env, directory: Directory, entries: seq<(string, Artifact)>): Option<Fault> {
    if entries == [] then None
    else
      match ArtifactFault(env, directory, entries[0].0, entries[0].1)
      case Some(fault) => Some(fault)
      case None => FirstArtifactFault(env, directory, entries[1..])
  }

  function CheckArtifacts(env: Env, directory: Directory, manifest: Dict): Option<Fault> {
    if ARTIFACTS_KEY !in manifest then None
    else
      match manifest[ARTIFACTS_KEY]
      case Artifacts(entries) => FirstArtifactFault(env, directory, entries)
      case _ => Some(NoArtifacts)
  }

  // No fault is met exactly when every artifact is there as described.
  lemma {:induction false} ArtifactsHoldIff(env: Env, directory: Directory, entries: seq<(string, Artifact)>)
    ensures FirstArtifactFault(env, directory, entries).None? <==>
            forall i :: 0 <= i < |entries| ==> entries[i].0 in directory && Describe(env, directory[entries[i].0]) == entries[i].1
  {
    if entries != [] {
      ArtifactsHoldIff(env, directory, entries[1..]);
      assert forall i :: 1 <= i < |entries| ==> entries[i] == entries[1..][i - 1];
    }
  }

  predicate DifferentNames(env: Env, rows: seq<Doc>) {
    forall i, j :: 0 <= i < j < |rows| ==> env.basename(rows[i].source) != env.basename(rows[j].source)
  }

  predicate AllAttributed(rows: seq<Doc>, provenance: Provenance) {
    forall i :: 0 <= i < |rows| ==> rows[i].source in provenance
  }

  function CheckManifest(env: Env, directory: Directory): Result<(Dict, string), Fault> {
    if MANIFEST !in directory then Err(NoManifest)
    else
      match env.decode(directory[MANIFEST])
      case None => Err(BadManifest)
      case Some(whole) =>
        var manifest := whole - {HASH_KEY, REVISION_KEY};
        var actual := env.hash(env.encode(manifest));
        if HASH_KEY !in whole then Err(FieldMissing(HASH_KEY))
        else if REVISION_KEY !in whole then Err(FieldMissing(REVISION_KEY))
        else if whole[HASH_KEY] != Text(actual) then Err(HashMismatch)
        else if whole[REVISION_KEY] != Text(RevisionName(actual)) then Err(RevisionMismatch)
        else
          match CheckArtifacts(env, directory, manifest)
          case Some(fault) => Err(fault)
          case None => Ok((manifest, actual))
  }

  function ReadRows(env: Env, directory: Directory): Option<seq<Doc>> {
    if DOCUMENTS !in directory then None else DecodeRows(env, Lines(directory[DOCUMENTS]))
  }

  function ReadProvenance(env: Env, directory: Directory): Option<Provenance> {
    if PROVENANCE !in directory then None else env.decodeProvenance(directory[PROVENANCE])
  }

  function CheckContents(env: Env, manifest: Dict, rows: seq<Doc>, provenance: Provenance): Option<Fault> {
    if COUNTS_KEY !in manifest || !manifest[COUNTS_KEY].Counts? then Some(BadCounts)
    else if |rows| != manifest[COUNTS_KEY].documents then Some(CountMismatch)
    else if !AllAttributed(rows, provenance) then Some(ProvenanceMissing)
    else if !DifferentNames(env, rows) then Some(SharedBasename)
    else None
  }

  function Validate(env: Env, directory: Directory): Result<Summary, Fault> {
    match CheckManifest(env, directory)
    case Err(fault) => Err(fault)
    case Ok((manifest, hash)) =>
      if ReadRows(env, directory).None? then Err(BadDocuments)
      else if ReadProvenance(env, directory).None? then Err(BadProvenance)
      else
        var rows, provenance := ReadRows(env, directory).value, ReadProvenance(env, directory).value;
        match CheckContents(env, manifest, rows, provenance)
        case Some(fault) => Err(fault)
        case None => Ok(Summary(RevisionName(hash), hash, |rows|, |provenance|))
  }

  // The check as it runs, first fault first.
  method RunValidate(env: Env, directory: Directory) returns (outcome: Result<Summary, Fault>)
    ensures outcome == Validate(env, directory)
  {
    if MANIFEST !in directory {
      return Err(NoManifest);
    }
    var decoded := env.decode(directory[MANIFEST]);
    if decoded.None? {
      return Err(BadManifest);
    }
    var whole := decoded.value;
    if HASH_KEY !in whole {
      return Err(FieldMissing(HASH_KEY));
    }
    if REVISION_KEY !in whole {
      return Err(FieldMissing(REVISION_KEY));
    }
    var manifest := whole - {HASH_KEY, REVISION_KEY};
    var actual := env.hash(env.encode(manifest));
    if whole[HASH_KEY] != Text(actual) {
      return Err(HashMismatch);
    }
    if whole[REVISION_KEY] != Text(RevisionName(actual)) {
      return Err(RevisionMismatch);
    }
    var fault := RunArtifacts(env, directory, manifest);
    if fault.Some? {
      return Err(fault.value);
    }
    outcome := RunContents(env, directory, manifest, actual);
  }

  method RunContents(env: Env, directory: Directory, manifest: Dict, actual: string) returns (outcome: Result<Summary, Fault>)
    requires CheckManifest(env, directory) == Ok((manifest, actual))
    ensures outcome == Validate(env, directory)
  {
    var rows := ReadRows(env, directory);
    if rows.None? {
      return Err(BadDocuments);
    }
    var provenance := ReadProvenance(env, directory);
    if provenance.None? {
      return Err(BadProvenance);
    }
    if COUNTS_KEY !in manifest || !manifest[COUNTS_KEY].Counts? {
      return Err(BadCounts);
    }
    if |rows.value| != manifest[COUNTS_KEY].documents {
      return Err(CountMismatch);
    }
    var missing, shared := CheckRows(env, rows.value, provenance.value);
    if missing {
      return Err(ProvenanceMissing);
    }
    if shared {
      return Err(SharedBasename);
    }
    return Ok(Summary(RevisionName(actual), actual, |rows.value|, |provenance.value|));
  }

  method RunArtifacts(env: Env, directory: Directory, manifest: Dict) returns (fault: Option<Fault>)
    ensures fault == CheckArtifacts(env, directory, manifest)
  {
    if ARTIFACTS_KEY !in manifest {
      return None;
    }
    if !manifest[ARTIFACTS_KEY].Artifacts? {
      return Some(NoArtifacts);
    }
    var entries := manifest[ARTIFACTS_KEY].entries;
    assert entries[0..] == entries;
    for i := 0 to |entries|
      invariant FirstArtifactFault(env, directory, entries) == FirstArtifactFault(env, directory, entries[i..])
    {
      var (name, expected) := entries[i];
      assert entries[i..][1..] == entries[i + 1..];
      if name !in directory {
        return Some(MissingArtifact(name));
      }
      if env.size(directory[name]) != expected.size {
        return Some(SizeMismatch(name));
      }
      if env.hash(directory[name]) != expected.sha256 {
        return Some(DigestMismatch(name));
      }
    }
    return None;
  }

  method CheckRows(env: Env, rows: seq<Doc>, provenance: Provenance) returns (missing: bool, shared: bool)
    ensures missing == !AllAttributed(rows, provenance)
    ensures shared == !DifferentNames(env, rows)
  {
    missing, shared := false, false;
    var names: set<string> := {};
    for i := 0 to |rows|
      invariant missing == !AllAttributed(rows[..i], provenance)
      invariant shared == !DifferentNames(env, rows[..i])
      invariant forall name :: name in names <==> exists j :: 0 <= j < i && env.basename(rows[j].source) == name
    {
      assert rows[..i + 1] == rows[..i] + [rows[i]];
      RowsSnoc(env, rows[..i], rows[i], provenance);
      missing := missing || rows[i].source !in provenance;
      shared := shared || env.basename(rows[i].source) in names;
      names := names + {env.basename(rows[i].source)};
    }
    assert rows[..|rows|] == rows;
  }

  lemma RowsSnoc(env: Env, rows: seq<Doc>, last: Doc, provenance: Provenance)
    ensures AllAttributed(rows + [last], provenance) <==> AllAttributed(rows, provenance) && last.source in provenance
    ensures DifferentNames(env, rows + [last]) <==>
            DifferentNames(env, rows) && forall j :: 0 <= j < |rows| ==> env.basename(rows[j].source) != env.basename(last.source)
  {
    var all := rows + [last];
    assert all[|rows|] == last && forall j :: 0 <= j < |rows| ==> all[j] == rows[j];
  }

  // ----- Rows read back -----

  lemma BreakIndexIs(s: string, i: nat)
    requires i < |s| && IsLineBreak(s[i]) && forall j :: 0 <= j < i ==> !IsLineBreak(s[j])
    ensures BreakIndex(s) == i
  {
    var k := BreakIndex(s);
    assert k < |s| ==> IsLineBreak(s[k]);
  }

  // A text without breaks is one line, unless it is empty; what is in front of a break is one, unless it is empty, and
  // the lines behind the break follow.
  lemma LinesAre(text: string, c: char, rest: string)
    requires Unbroken(text) && IsLineBreak(c)
    ensures Lines(text) == if text == "" then [] else [text]
    ensures Lines(text + [c] + rest) == (if text == "" then [] else [text]) + Lines(rest)
  {
    assert BreakIndex(text) == |text|;
    assert text[..|text|] == text;
    var s := text + [c] + rest;
    assert forall j :: 0 <= j < |text| ==> s[j] == text[j];
    assert s[|text|] == c;
    BreakIndexIs(s, |text|);
    assert s[..|text|] == text && s[|text| + 1..] == rest;
  }

  // The first line of some text followed by a line feed: all of it when it has no break, a proper part otherwise.
  lemma FirstLine(text: string, rest: string)
    requires text != "" && !IsLineBreak(text[0])
    ensures Unbroken(text) ==> Lines(text + "\n" + rest) == [text] + Lines(rest)
    ensures !Unbroken(text) ==> exists n :: 0 < n < |text| && Lines(text + "\n" + rest) != [] && Lines(text + "\n" + rest)[0] == text[..n]
  {
    var s, i := text + "\n" + rest, BreakIndex(text);
    assert forall j :: 0 <= j < |text| ==> s[j] == text[j];
    assert s[|text|] == '\n';
    BreakIndexIs(s, i);
    assert s[..i] == text[..i];
    if i == |text| {
      assert s[i + 1..] == rest && text[..i] == text;
    } else {
      assert !Unbroken(text);
      assert 0 < i < |text| && Lines(s)[0] == text[..i];
    }
  }

  ghost predicate AllUnbroken(env: Env, rows: seq<Doc>) {
    forall i :: 0 <= i < |rows| ==> Unbroken(env.encodeRow(rows[i]))
  }

  // Reading the rows file gives back the rows exactly when no encoded row holds a line break of splitlines; otherwise
  // it fails.
  lemma {:induction false} RowsReadBackIff(env: Env, rows: seq<Doc>)
    requires forall row :: FaithfulRow(env, row)
    ensures DecodeRows(env, Lines(Jsonl(env, rows))) == if AllUnbroken(env, rows) then Some(rows) else None
  {
    if rows != [] {
      var text, rest := env.encodeRow(rows[0]), Jsonl(env, rows[1..]);
      assert FaithfulRow(env, rows[0]);
      FirstLine(text, rest);
      RowsReadBackIff(env, rows[1..]);
      UnbrokenCons(env, rows);
      if Unbroken(text) {
        assert ([text] + Lines(rest))[1..] == Lines(rest);
        assert [rows[0]] + rows[1..] == rows;
      }
    }
  }

  lemma UnbrokenCons(env: Env, rows: seq<Doc>)
    requires rows != []
    ensures AllUnbroken(env, rows) <==> Unbroken(env.encodeRow(rows[0])) && AllUnbroken(env, rows[1..])
  {
    assert forall i :: 1 <= i < |rows| ==> rows[i] == rows[1..][i - 1];
  }

  // JSON leaves a line separator in a string as it is, so this row is one line when written and two when read.
  const ROW := Doc("page-1\U{2028}2.txt", "")
  const ROW_TEXT := "{\"file_source\": \"page-1\U{2028}2.txt\"}"

  lemma SeparatorBreaksRow(env: Env, meta: Dict, provenance: Provenance)
    requires Faithful(env) && env.encodeRow(ROW) == ROW_TEXT
    ensures DecodeRows(env, Lines(Jsonl(env, [ROW]))) == None
    ensures Validate(env, Staged(env, meta, [ROW], provenance)).Err?
  {
    var head, tail := "{\"file_source\": \"page-1", "2.txt\"}";
    assert ROW_TEXT == head + "\U{2028}" + tail;
    assert ROW_TEXT[|head|] == '\U{2028}';
    assert !Unbroken(env.encodeRow([ROW][0]));
    RowsReadBackIff(env, [ROW]);
    StagedPassesIff(env, meta, [ROW], provenance);
  }

  // ----- Which payloads give revisions that pass -----

  lemma NamesDiffer()
    ensures HASH_KEY != REVISION_KEY && ARTIFACTS_KEY !in {HASH_KEY, REVISION_KEY, COUNTS_KEY} && COUNTS_KEY !in {HASH_KEY, REVISION_KEY}
    ensures DOCUMENTS != PROVENANCE && MANIFEST !in {DOCUMENTS, PROVENANCE}
  {
    assert HASH_KEY[0] == 'm' && REVISION_KEY[0] == 'c' && DOCUMENTS[0] == 'd' && PROVENANCE[0] == 'p' && MANIFEST[0] == 'm';
    assert |COUNTS_KEY| == 6 && |REVISION_KEY| == 15;
  }

  ghost predicate Good(env: Env, meta: Dict, documents: seq<Doc>, provenance: Provenance) {
    && HASH_KEY !in meta && REVISION_KEY !in meta
    && COUNTS_KEY in meta && meta[COUNTS_KEY].Counts? && meta[COUNTS_KEY].documents == |documents|
    && AllAttributed(documents, provenance)
    && DifferentNames(env, documents)
    && AllUnbroken(env, documents)
  }

  lemma UnsealedIff(manifest: Dict, hash: string)
    ensures Sealed(manifest, hash) - {HASH_KEY, REVISION_KEY} == manifest <==> HASH_KEY !in manifest && REVISION_KEY !in manifest
    ensures HASH_KEY in Sealed(manifest, hash) && Sealed(manifest, hash)[HASH_KEY] == Text(hash)
    ensures REVISION_KEY in Sealed(manifest, hash) && Sealed(manifest, hash)[REVISION_KEY] == Text(RevisionName(hash))
  {
    NamesDiffer();
    var open := Sealed(manifest, hash) - {HASH_KEY, REVISION_KEY};
    assert HASH_KEY !in open && REVISION_KEY !in open;
  }

  lemma EncodingsDiffer(env: Env, a: Dict, b: Dict)
    requires Faithful(env) && env.encode(a) == env.encode(b)
    ensures a == b
  {
    assert env.decode(env.encode(a)) == Some(a) && env.decode(env.encode(b)) == Some(b);
  }

  lemma StagedManifest(env: Env, meta: Dict, documents: seq<Doc>, provenance: Provenance)
    requires Faithful(env)
    ensures var manifest, hash := ManifestOf(env, meta, documents, provenance), HashOf(env, meta, documents, provenance);
            CheckManifest(env, Staged(env, meta, documents, provenance)) ==
            if HASH_KEY !in meta && REVISION_KEY !in meta then Ok((manifest, hash)) else Err(HashMismatch)
  {
    var manifest, hash := ManifestOf(env, meta, documents, provenance), HashOf(env, meta, documents, provenance);
    var sealed := Sealed(manifest, hash);
    var open := sealed - {HASH_KEY, REVISION_KEY};
    NamesDiffer();
    UnsealedIff(manifest, hash);
    assert env.decode(env.encode(sealed)) == Some(sealed);
    if open == manifest {
      ArtifactsHoldIff(env, Staged(env, meta, documents, provenance), manifest[ARTIFACTS_KEY].entries);
    } else if env.hash(env.encode(open)) == hash {
      EncodingsDiffer(env, open, manifest);
    }
  }

  // A staged revision passes exactly when its payload is good: nothing in it stands where the seal goes, its count is
  // right, its rows are attributed and named apart, and no row holds a character that splitlines breaks at.
  lemma StagedPassesIff(env: Env, meta: Dict, documents: seq<Doc>, provenance: Provenance)
    requires Faithful(env)
    ensures Validate(env, Staged(env, meta, documents, provenance)).Ok? <==> Good(env, meta, documents, provenance)
    ensures Validate(env, Staged(env, meta, documents, provenance)).Ok? ==>
              var hash := HashOf(env, meta, documents, provenance);
              Validate(env, Staged(env, meta, documents, provenance)).value == Summary(RevisionName(hash), hash, |documents|, |provenance|)
  {
    NamesDiffer();
    StagedManifest(env, meta, documents, provenance);
    RowsReadBackIff(env, documents);
    var manifest := ManifestOf(env, meta, documents, provenance);
    assert COUNTS_KEY in manifest <==> COUNTS_KEY in meta;
    assert COUNTS_KEY in meta ==> manifest[COUNTS_KEY] == meta[COUNTS_KEY];
    assert env.decodeProvenance(env.encodeProvenance(provenance)) == Some(provenance);
  }

  // ----- Revisions never change -----

  ghost predicate StagedFrom(env: Env, name: string, directory: Directory) {
    exists meta, documents, provenance ::
      directory == Staged(env, meta, documents, provenance) && name == RevisionName(HashOf(env, meta, documents, provenance))
  }

  ghost predicate Inv(env: Env, store: Store) {
    forall name :: name in store ==> StagedFrom(env, name, store[name])
  }

  // What an existing revision's manifest says of its hash, and what that hash pins down.
  lemma SameHashSameFiles(env: Env, meta: Dict, documents: seq<Doc>, provenance: Provenance, meta2: Dict, documents2: seq<Doc>, provenance2: Provenance)
    requires Faithful(env)
    requires HashOf(env, meta, documents, provenance) == HashOf(env, meta2, documents2, provenance2)
    ensures Staged(env, meta, documents, provenance) == Staged(env, meta2, documents2, provenance2)
  {
    var a, b := ManifestOf(env, meta, documents, provenance), ManifestOf(env, meta2, documents2, provenance2);
    assert env.encode(a) == env.encode(b);
    EncodingsDiffer(env, a, b);
    NamesDiffer();
    var x, y := a[ARTIFACTS_KEY].entries, b[ARTIFACTS_KEY].entries;
    assert x[0].1 == Describe(env, Jsonl(env, documents)) && y[0].1 == Describe(env, Jsonl(env, documents2));
    assert x[1].1 == Describe(env, env.encodeProvenance(provenance)) && y[1].1 == Describe(env, env.encodeProvenance(provenance2));
  }

  lemma AnswerOf(env: Env, meta: Dict, documents: seq<Doc>, provenance: Provenance, name: string, hash: string)
    requires Faithful(env)
    ensures Answer(env, Staged(env, meta, documents, provenance), name, hash) ==
            if HashOf(env, meta, documents, provenance) == hash then Ok(name) else Err(Conflict(name))
  {
    NamesDiffer();
    var own := HashOf(env, meta, documents, provenance);
    var sealed := Sealed(ManifestOf(env, meta, documents, provenance), own);
    UnsealedIff(ManifestOf(env, meta, documents, provenance), own);
    assert env.decode(env.encode(sealed)) == Some(sealed);
  }

  // What putting a staged revision under its name does: other revisions stay, and the call succeeds exactly when the
  // staged files are under the name afterwards, which fails only for different files already there.
  ghost predicate PutsOrKeeps(store: Store, after: Store, outcome: Result<string, PublishError>, name: string, staged: Directory) {
    && after.Keys == store.Keys + {name}
    && (forall other :: other in store ==> after[other] == store[other])
    && (outcome == Ok(name) <==> after[name] == staged)
    && (outcome == Err(Conflict(name)) <==> name in store && store[name] != staged)
    && (outcome == Ok(name) || outcome == Err(Conflict(name)))
  }

  lemma PutIn(store: Store, name: string, staged: Directory, answer: Result<string, PublishError>)
    requires name in store ==> answer == if store[name] == staged then Ok(name) else Err(Conflict(name))
    ensures if name in store then PutsOrKeeps(store, store, answer, name, staged)
            else PutsOrKeeps(store, store[name := staged], Ok(name), name, staged)
  {
  }

  // One call: an incomplete payload is refused and changes nothing; a complete one is put or kept.
  lemma PublishMeans(env: Env, store: Store, payload: Payload)
    requires Faithful(env) && Inv(env, store)
    ensures var (after, outcome) := Publish(env, store, payload);
            && Inv(env, after)
            && (payload.documents.None? ==> after == store && outcome == Err(KeyMissing("documents")))
            && (payload.documents.Some? && payload.provenance.None? ==> after == store && outcome == Err(KeyMissing("provenance")))
            && (payload.documents.Some? && payload.provenance.Some? ==>
                  PutsOrKeeps(store, after, outcome,
                              RevisionName(HashOf(env, payload.meta, payload.documents.value, payload.provenance.value)),
                              Staged(env, payload.meta, payload.documents.value, payload.provenance.value)))
  {
    if payload.documents.Some? && payload.provenance.Some? {
      PutMeans(env, store, payload.meta, payload.documents.value, payload.provenance.value);
    }
  }

  lemma PutMeans(env: Env, store: Store, meta: Dict, documents: seq<Doc>, provenance: Provenance)
    requires Faithful(env) && Inv(env, store)
    ensures var (after, outcome) := Put(env, store, meta, documents, provenance);
            && Inv(env, after)
            && PutsOrKeeps(store, after, outcome, RevisionName(HashOf(env, meta, documents, provenance)), Staged(env, meta, documents, provenance))
  {
    var hash := HashOf(env, meta, documents, provenance);
    var name, staged := RevisionName(hash), Staged(env, meta, documents, provenance);
    if name in store {
      assert StagedFrom(env, name, store[name]);
      ExistingAnswers(env, store[name], name, meta, documents, provenance);
      PutIn(store, name, staged, Answer(env, store[name], name, hash));
    } else {
      assert StagedFrom(env, name, staged);
      PutIn(store, name, staged, Ok(name));
    }
  }

  // An existing revision answers with success exactly when it holds the very files that would be written.
  lemma ExistingAnswers(env: Env, existing: Directory, name: string, meta: Dict, documents: seq<Doc>, provenance: Provenance)
    requires Faithful(env) && StagedFrom(env, name, existing)
    ensures Answer(env, existing, name, HashOf(env, meta, documents, provenance)) ==
            if existing == Staged(env, meta, documents, provenance) then Ok(name) else Err(Conflict(name))
  {
    var hash := HashOf(env, meta, documents, provenance);
    var meta2, documents2, provenance2 :|
      existing == Staged(env, meta2, documents2, provenance2) && name == RevisionName(HashOf(env, meta2, documents2, provenance2));
    AnswerOf(env, meta2, documents2, provenance2, name, hash);
    if HashOf(env, meta2, documents2, provenance2) == hash {
      SameHashSameFiles(env, meta, documents, provenance, meta2, documents2, provenance2);
    } else {
      DifferentHashDifferentFiles(env, meta, documents, provenance, meta2, documents2, provenance2);
    }
  }

  lemma DifferentHashDifferentFiles(env: Env, meta: Dict, documents: seq<Doc>, provenance: Provenance, meta2: Dict, documents2: seq<Doc>, provenance2: Provenance)
    requires Faithful(env)
    requires HashOf(env, meta, documents, provenance) != HashOf(env, meta2, documents2, provenance2)
    ensures Staged(env, meta, documents, provenance) != Staged(env, meta2, documents2, provenance2)
  {
    var h, h2 := HashOf(env, meta, documents, provenance), HashOf(env, meta2, documents2, provenance2);
    AnswerOf(env, meta, documents, provenance, "", h);
    AnswerOf(env, meta2, documents2, provenance2, "", h);
  }

  function PublishAll(env: Env, store: Store, payloads: seq<Payload>): Store
    decreases |payloads|
  {
    if payloads == [] then store else PublishAll(env, Publish(env, store, payloads[0]).0, payloads[1..])
  }

  // Over any calls, every revision that is there stays as it is.
  lemma {:induction false} RevisionsNeverChange(env: Env, store: Store, payloads: seq<Payload>)
    requires Faithful(env) && Inv(env, store)
    ensures var after := PublishAll(env, store, payloads);
            Inv(env, after) && forall name :: name in store ==> name in after && after[name] == store[name]
    decreases |payloads|
  {
    if payloads != [] {
      PublishMeans(env, store, payloads[0]);
      RevisionsNeverChange(env, Publish(env, store, payloads[0]).0, payloads[1..]);
    }
  }

  ghost predicate AllPass(env: Env, store: Store) {
    forall name :: name in store ==> Validate(env, store[name]).Ok? && Validate(env, store[name]).value.revision == name
  }

  ghost predicate GoodPayload(env: Env, payload: Payload) {
    payload.documents.Some? && payload.provenance.Some? ==> Good(env, payload.meta, payload.documents.value, payload.provenance.value)
  }

  // Over any calls with good payloads, every revision passes the check under its own name.
  lemma {:induction false} EveryRevisionPasses(env: Env, store: Store, payloads: seq<Payload>)
    requires Faithful(env) && AllPass(env, store)
    requires forall i :: 0 <= i < |payloads| ==> GoodPayload(env, payloads[i])
    ensures AllPass(env, PublishAll(env, store, payloads))
    decreases |payloads|
  {
    if payloads != [] {
      assert GoodPayload(env, payloads[0]);
      GoodCallPasses(env, store, payloads[0]);
      EveryRevisionPasses(env, Publish(env, store, payloads[0]).0, payloads[1..]);
    }
  }

  lemma GoodCallPasses(env: Env, store: Store, payload: Payload)
    requires Faithful(env) && AllPass(env, store) && GoodPayload(env, payload)
    ensures AllPass(env, Publish(env, store, payload).0)
  {
    if payload.documents.Some? && payload.provenance.Some? {
      StagedPassesIff(env, payload.meta, payload.documents.value, payload.provenance.value);
    }
  }

  // Publishing equal contents again finds the revision; the payload object of the first call no longer has them.
  lemma PublishAgain(env: Env, store: Store, payload: Payload)
    requires Faithful(env) && Inv(env, store) && Publish(env, store, payload).1.Ok?
    ensures var after := Publish(env, store, payload).0;
            && Publish(env, after, payload) == (after, Publish(env, store, payload).1)
            && Publish(env, after, Popped(payload)) == (after, Err(KeyMissing("documents")))
  {
    var after := Publish(env, store, payload).0;
    PublishMeans(env, store, payload);
    PublishMeans(env, after, payload);
    AnswerOf(env, payload.meta, payload.documents.value, payload.provenance.value,
             RevisionName(HashOf(env, payload.meta, payload.documents.value, payload.provenance.value)),
             HashOf(env, payload.meta, payload.documents.value, payload.provenance.value));
  }
}
