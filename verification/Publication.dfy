/**
 Immutable corpus revisions: publish of integrations/zotero_lightrag/publish_corpus.py against validate of
 validate_revision.py. Hashing, JSON and the file system's base names are functions of the environment.
 */
module Publication {
  import opened Outcomes

  // ----- What is published -----

  // Artifacts are listed in the order of the manifest.
  datatype Artifact = Artifact(sha256: string, size: nat)

  datatype Value =
    | Text(text: string)
    | Counts(documents: int, others: string)
    | Artifacts(entries: seq<(string, Artifact)>)

  type Dict = map<string, Value>

  datatype Doc = Doc(source: string, others: string)

  type Provenance = map<string, string>

  // The files of one revision directory.
  type Directory = map<string, string>

  datatype Env = Env(
    hash: string -> string,
    size: string -> nat,
    encode: Dict -> string,
    decode: string -> Option<Dict>,
    encodeRow: Doc -> string,
    decodeRow: string -> Option<Doc>,
    encodeProvenance: Provenance -> string,
    decodeProvenance: string -> Option<Provenance>,
    basename: string -> string)

  const DOCUMENTS := "documents.jsonl"
  const PROVENANCE := "provenance.json"
  const MANIFEST := "manifest.json"
  const HASH_KEY := "manifest_sha256"
  const REVISION_KEY := "corpus_revision"
  const ARTIFACTS_KEY := "artifacts"
  const COUNTS_KEY := "counts"

  // Where Python's splitlines ends a line.
  predicate IsLineBreak(c: char) {
    '\n' <= c <= '\r' || '\U{1C}' <= c <= '\U{1E}' || c == '\U{85}' || c == '\U{2028}' || c == '\U{2029}'
  }

  lemma LineBreaksAre(c: char)
    ensures IsLineBreak(c) <==> c in {'\n', '\U{B}', '\U{C}', '\r', '\U{1C}', '\U{1D}', '\U{1E}', '\U{85}', '\U{2028}', '\U{2029}'}
  {
  }

  predicate Unbroken(s: string) {
    forall i :: 0 <= i < |s| ==> !IsLineBreak(s[i])
  }

  // Decoding undoes encoding, hashes do not collide, and the encoding of a row is an object: it starts with its brace,
  // and no part of it up to some point inside decodes.
  ghost predicate Faithful(env: Env) {
    && (forall d :: env.decode(env.encode(d)) == Some(d))
    && (forall p :: env.decodeProvenance(env.encodeProvenance(p)) == Some(p))
    && (forall a, b :: env.hash(a) == env.hash(b) ==> a == b)
    && forall row :: FaithfulRow(env, row)
  }

  ghost predicate FaithfulRow(env: Env, row: Doc) {
    var text := env.encodeRow(row);
    && text != "" && !IsLineBreak(text[0])
    && env.decodeRow(text) == Some(row)
    && forall n :: 0 < n < |text| ==> env.decodeRow(text[..n]) == None
  }

  // ----- Staging -----

  function Jsonl(env: Env, rows: seq<Doc>): string {
    if rows == [] then "" else env.encodeRow(rows[0]) + "\n" + Jsonl(env, rows[1..])
  }

  function Describe(env: Env, text: string): Artifact {
    Artifact(env.hash(text), env.size(text))
  }

  function ManifestOf(env: Env, meta: Dict, documents: seq<Doc>, provenance: Provenance): Dict {
    meta[ARTIFACTS_KEY := Artifacts([
        (DOCUMENTS, Describe(env, Jsonl(env, documents))),
        (PROVENANCE, Describe(env, env.encodeProvenance(provenance)))])]
  }

  function HashOf(env: Env, meta: Dict, documents: seq<Doc>, provenance: Provenance): string {
    env.hash(env.encode(ManifestOf(env, meta, documents, provenance)))
  }

  function RevisionName(hash: string): string {
    "corpus_" + if |hash| < 20 then hash else hash[..20]
  }

  function Sealed(manifest: Dict, hash: string): Dict {
    manifest[HASH_KEY := Text(hash)][REVISION_KEY := Text(RevisionName(hash))]
  }

  function Staged(env: Env, meta: Dict, documents: seq<Doc>, provenance: Provenance): Directory {
    map[DOCUMENTS := Jsonl(env, documents),
        PROVENANCE := env.encodeProvenance(provenance),
        MANIFEST := env.encode(Sealed(ManifestOf(env, meta, documents, provenance), HashOf(env, meta, documents, provenance)))]
  }

  // ----- Publishing -----

  datatype PublishError = KeyMissing(key: string) | Unreadable(revision: string) | Conflict(revision: string)

  datatype Payload = Payload(meta: Dict, documents: Option<seq<Doc>>, provenance: Option<Provenance>)

  type Store = map<string, Directory>

  // What a call answers, and the store it leaves.
  function Publish(env: Env, store: Store, payload: Payload): (Store, Result<string, PublishError>) {
    if payload.documents.None? then (store, Err(KeyMissing("documents")))
    else if payload.provenance.None? then (store, Err(KeyMissing("provenance")))
    else Put(env, store, payload.meta, payload.documents.value, payload.provenance.value)
  }

  function Put(env: Env, store: Store, meta: Dict, documents: seq<Doc>, provenance: Provenance): (Store, Result<string, PublishError>) {
    var hash := HashOf(env, meta, documents, provenance);
    var name := RevisionName(hash);
    if name !in store then (store[name := Staged(env, meta, documents, provenance)], Ok(name))
    else (store, Answer(env, store[name], name, hash))
  }

  // Taking the documents and the provenance out, even when the call then fails.
  function Popped(payload: Payload): Payload {
    if payload.documents.None? then payload else payload.(documents := None, provenance := None)
  }

  function Answer(env: Env, existing: Directory, name: string, hash: string): Result<string, PublishError> {
    if MANIFEST !in existing || env.decode(existing[MANIFEST]).None? then Err(Unreadable(name))
    else
      var manifest := env.decode(existing[MANIFEST]).value;
      if HASH_KEY in manifest && manifest[HASH_KEY] == Text(hash) then Ok(name) else Err(Conflict(name))
  }

  // An existing revision is found again exactly when its manifest can be read and carries the hash; whatever is wrong is
  // told under its name.
  lemma AnswerMeans(env: Env, existing: Directory, name: string, hash: string)
    ensures var answer := Answer(env, existing, name, hash);
            && (answer == Ok(name) <==>
                MANIFEST in existing && env.decode(existing[MANIFEST]).Some?
                && var manifest := env.decode(existing[MANIFEST]).value; HASH_KEY in manifest && manifest[HASH_KEY] == Text(hash))
            && (answer == Err(Unreadable(name)) <==> MANIFEST in existing ==> env.decode(existing[MANIFEST]).None?)
            && answer in {Ok(name), Err(Unreadable(name)), Err(Conflict(name))}
  {
  }

  // The payload object, whose entries the call takes out.
  class Corpus {
    var meta: Dict
    var documents: Option<seq<Doc>>
    var provenance: Option<Provenance>

    constructor (payload: Payload)
      ensures Value() == payload
    {
      meta, documents, provenance := payload.meta, payload.documents, payload.provenance;
    }

    function Value(): Payload
      reads this
    {
      Payload(meta, documents, provenance)
    }
  }

  class OutputRoot {
    var revisions: Store

    constructor ()
      ensures revisions == map[]
    {
      revisions := map[];
    }

    method PublishCorpus(env: Env, payload: Corpus) returns (outcome: Result<string, PublishError>)
      modifies this, payload
      ensures (revisions, outcome) == Publish(env, old(revisions), old(payload.Value()))
      ensures payload.Value() == Popped(old(payload.Value()))
      ensures payload.meta == old(payload.meta) && payload.documents == None
      ensures payload.provenance == if old(payload.documents).None? then old(payload.provenance) else None
    {
      if payload.documents.None? {
        return Err(KeyMissing("documents"));
      }
      var documents := payload.documents.value;
      payload.documents := None;
      if payload.provenance.None? {
        return Err(KeyMissing("provenance"));
      }
      var provenance := payload.provenance.value;
      payload.provenance := None;
      outcome := PutRevision(env, payload.meta, documents, provenance);
    }

    method PutRevision(env: Env, meta: Dict, documents: seq<Doc>, provenance: Provenance) returns (outcome: Result<string, PublishError>)
      modifies this
      ensures (revisions, outcome) == Put(env, old(revisions), meta, documents, provenance)
    {
      var rows := WriteJsonl(env, documents);
      var described := env.encodeProvenance(provenance);
      var manifest := meta[ARTIFACTS_KEY := Artifacts([(DOCUMENTS, Describe(env, rows)), (PROVENANCE, Describe(env, described))])];
      var hash := env.hash(env.encode(manifest));
      var name := RevisionName(hash);
      manifest := Sealed(manifest, hash);
      var staging := map[DOCUMENTS := rows, PROVENANCE := described, MANIFEST := env.encode(manifest)];
      if name in revisions {
        return Answer(env, revisions[name], name, hash);
      }
      revisions := revisions[name := staging];
      return Ok(name);
    }
  }

  method WriteJsonl(env: Env, rows: seq<Doc>) returns (text: string)
    ensures text == Jsonl(env, rows)
  {
    text := "";
    assert rows[0..] == rows && "" + Jsonl(env, rows) == Jsonl(env, rows);
    for i := 0 to |rows|
      invariant text + Jsonl(env, rows[i..]) == Jsonl(env, rows)
    {
      assert rows[i..][1..] == rows[i + 1..];
      ghost var rest := Jsonl(env, rows[i + 1..]);
      assert text + (env.encodeRow(rows[i]) + "\n" + rest) == text + (env.encodeRow(rows[i]) + "\n") + rest;
      text := text + (env.encodeRow(rows[i]) + "\n");
    }
    assert text + "" == text;
  }
}
