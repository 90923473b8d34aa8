/**
 Which corpus revisions share a directory, from integrations/zotero_lightrag/publish_corpus.py: a revision is named by
 the start of its manifest hash.
 */
module RevisionNames {
  import opened Outcomes
  import opened Publication
  import opened Validation

  // The first twenty characters.
  function Head(hash: string): string {
    if |hash| < 20 then hash else hash[..20]
  }

  // Two hashes name one directory exactly when their first twenty characters agree.
  lemma RevisionNamesIff(a: string, b: string)
    ensures RevisionName(a) == RevisionName(b) <==> (if |a| < 20 then a else a[..20]) == (if |b| < 20 then b else b[..20])
    ensures RevisionName(a) == "corpus_" + if |a| < 20 then a else a[..20]
  {
    assert RevisionName(a)[7..] == Head(a) && RevisionName(b)[7..] == Head(b);
  }

  // ----- Putting files under names -----

  datatype Entry = Entry(name: string, files: Directory)

  function PutEntry(store: Store, e: Entry): (Store, Result<string, PublishError>) {
    if e.name !in store then (store[e.name := e.files], Ok(e.name))
    else (store, if store[e.name] == e.files then Ok(e.name) else Err(Conflict(e.name)))
  }

  function PutEntries(store: Store, entries: seq<Entry>): Store
    decreases |entries|
  {
    if entries == [] then store else PutEntries(PutEntry(store, entries[0]).0, entries[1..])
  }

  function EntryAnswers(store: Store, entries: seq<Entry>): (answers: seq<Result<string, PublishError>>)
    ensures |answers| == |entries|
    decreases |entries|
  {
    if entries == [] then [] else [PutEntry(store, entries[0]).1] + EntryAnswers(PutEntry(store, entries[0]).0, entries[1..])
  }

  // Entries of one name have the same files, and so has the store where it knows the name.
  ghost predicate Agree(store: Store, entries: seq<Entry>) {
    && (forall e, e' :: e in entries && e' in entries && e.name == e'.name ==> e.files == e'.files)
    && (forall e :: e in entries && e.name in store ==> store[e.name] == e.files)
  }

  function Names(entries: seq<Entry>): set<string> {
    set e <- entries :: e.name
  }

  lemma NamesCons(head: Entry, rest: seq<Entry>)
    ensures Names([head] + rest) == {head.name} + Names(rest)
  {
    assert forall e :: e in [head] + rest <==> e == head || e in rest;
  }

  lemma {:induction false} StoreGrows(store: Store, entries: seq<Entry>, name: string)
    ensures PutEntries(store, entries).Keys == store.Keys + Names(entries)
    ensures name in store ==> name in PutEntries(store, entries) && PutEntries(store, entries)[name] == store[name]
    decreases |entries|
  {
    if entries != [] {
      StoreGrows(PutEntry(store, entries[0]).0, entries[1..], name);
      assert [entries[0]] + entries[1..] == entries;
      NamesCons(entries[0], entries[1..]);
    }
  }

  lemma AgreeBehind(store: Store, entries: seq<Entry>)
    requires Agree(store, entries) && entries != []
    ensures var (after, answer) := PutEntry(store, entries[0]);
            answer == Ok(entries[0].name) && after == store[entries[0].name := entries[0].files] && Agree(after, entries[1..])
  {
    var after := PutEntry(store, entries[0]).0;
    assert entries[0] in entries && forall e :: e in entries[1..] ==> e in entries;
    assert after == store[entries[0].name := entries[0].files];
  }

  // Entries that agree are all put.
  lemma {:induction false} AgreeingEntryIsPut(store: Store, entries: seq<Entry>, i: nat)
    requires Agree(store, entries) && i < |entries|
    ensures entries[i].name in PutEntries(store, entries) && PutEntries(store, entries)[entries[i].name] == entries[i].files
    ensures EntryAnswers(store, entries)[i] == Ok(entries[i].name)
    decreases |entries|
  {
    AgreeBehind(store, entries);
    if i == 0 {
      StoreGrows(PutEntry(store, entries[0]).0, entries[1..], entries[0].name);
    } else {
      AgreeingEntryIsPut(PutEntry(store, entries[0]).0, entries[1..], i - 1);
    }
  }

  // ----- Publishing puts -----

  ghost predicate Complete(payload: Payload) {
    payload.documents.Some? && payload.provenance.Some?
  }

  function PayloadHash(env: Env, p: Payload): string
    requires Complete(p)
  {
    HashOf(env, p.meta, p.documents.value, p.provenance.value)
  }

  function PayloadFiles(env: Env, p: Payload): Directory
    requires Complete(p)
  {
    Staged(env, p.meta, p.documents.value, p.provenance.value)
  }

  ghost function EntryOf(env: Env, p: Payload): Entry
    requires Complete(p)
  {
    Entry(RevisionName(PayloadHash(env, p)), PayloadFiles(env, p))
  }

  ghost function EntriesOf(env: Env, payloads: seq<Payload>): (entries: seq<Entry>)
    requires forall i :: 0 <= i < |payloads| ==> Complete(payloads[i])
    ensures |entries| == |payloads| && forall i :: 0 <= i < |payloads| ==> entries[i] == EntryOf(env, payloads[i])
  {
    seq(|payloads|, i requires 0 <= i < |payloads| => EntryOf(env, payloads[i]))
  }

  function Answers(env: Env, store: Store, payloads: seq<Payload>): seq<Result<string, PublishError>>
    decreases |payloads|
  {
    if payloads == [] then []
    else [Publish(env, store, payloads[0]).1] + Answers(env, Publish(env, store, payloads[0]).0, payloads[1..])
  }

  lemma PublishIsPut(env: Env, store: Store, p: Payload)
    requires Faithful(env) && Inv(env, store) && Complete(p)
    ensures Publish(env, store, p) == PutEntry(store, EntryOf(env, p)) && Inv(env, Publish(env, store, p).0)
  {
    var (after, outcome) := Publish(env, store, p);
    PublishKeepsOrPuts(env, store, p, after, outcome);
    KeepingIsPut(store, after, outcome, EntryOf(env, p));
  }

  lemma PublishKeepsOrPuts(env: Env, store: Store, p: Payload, after: Store, outcome: Result<string, PublishError>)
    requires Faithful(env) && Inv(env, store) && Complete(p) && (after, outcome) == Publish(env, store, p)
    ensures PutsOrKeeps(store, after, outcome, EntryOf(env, p).name, EntryOf(env, p).files) && Inv(env, after)
  {
    PublishMeans(env, store, p);
  }

  lemma KeepingIsPut(store: Store, after: Store, outcome: Result<string, PublishError>, e: Entry)
    requires PutsOrKeeps(store, after, outcome, e.name, e.files)
    ensures (after, outcome) == PutEntry(store, e)
  {
    if e.name in store {
      assert after == store;
    } else {
      assert after == store[e.name := e.files];
    }
  }

  lemma FirstIsPut(env: Env, store: Store, payloads: seq<Payload>) returns (after: Store, answer: Result<string, PublishError>)
    requires Faithful(env) && Inv(env, store) && payloads != [] && Complete(payloads[0])
    ensures (after, answer) == PutEntry(store, EntryOf(env, payloads[0])) && Inv(env, after)
    ensures PublishAll(env, store, payloads) == PublishAll(env, after, payloads[1..])
    ensures Answers(env, store, payloads) == [answer] + Answers(env, after, payloads[1..])
  {
    PublishIsPut(env, store, payloads[0]);
    after, answer := Publish(env, store, payloads[0]).0, Publish(env, store, payloads[0]).1;
  }

  lemma PutFirst(store: Store, entries: seq<Entry>, first: Entry, after: Store, answer: Result<string, PublishError>)
    requires entries != [] && entries[0] == first && (after, answer) == PutEntry(store, first)
    ensures PutEntries(store, entries) == PutEntries(after, entries[1..])
    ensures EntryAnswers(store, entries) == [answer] + EntryAnswers(after, entries[1..])
  {
  }

  lemma {:induction false} PublishAllPuts(env: Env, store: Store, payloads: seq<Payload>, entries: seq<Entry>)
    requires Faithful(env) && Inv(env, store) && |entries| == |payloads|
    requires forall i :: 0 <= i < |payloads| ==> Complete(payloads[i]) && entries[i] == EntryOf(env, payloads[i])
    ensures PublishAll(env, store, payloads) == PutEntries(store, entries)
    ensures Answers(env, store, payloads) == EntryAnswers(store, entries)
    decreases |payloads|
  {
    if payloads != [] {
      var after, answer := FirstIsPut(env, store, payloads);
      PutFirst(store, entries, entries[0], after, answer);
      PublishAllPuts(env, after, payloads[1..], entries[1..]);
    }
  }

  // ----- The main result -----

  lemma {:induction false} NamesCount(hashes: set<string>)
    requires forall a, b :: a in hashes && b in hashes && RevisionName(a) == RevisionName(b) ==> a == b
    ensures |set h | h in hashes :: RevisionName(h)| == |hashes|
  {
    if hashes != {} {
      var h :| h in hashes;
      NamesCount(hashes - {h});
      assert (set x | x in hashes :: RevisionName(x)) == (set x | x in hashes - {h} :: RevisionName(x)) + {RevisionName(h)};
      assert RevisionName(h) !in set x | x in hashes - {h} :: RevisionName(x);
    }
  }

  ghost predicate HeadsDiffer(env: Env, payloads: seq<Payload>)
    requires forall i :: 0 <= i < |payloads| ==> Complete(payloads[i])
  {
    forall i, j :: 0 <= i < |payloads| && 0 <= j < |payloads| ==>
      var a, b := PayloadHash(env, payloads[i]), PayloadHash(env, payloads[j]);
      (if |a| < 20 then a else a[..20]) == (if |b| < 20 then b else b[..20]) ==> a == b
  }

  lemma EntriesAgree(env: Env, payloads: seq<Payload>)
    requires Faithful(env) && (forall i :: 0 <= i < |payloads| ==> Complete(payloads[i])) && HeadsDiffer(env, payloads)
    ensures Agree(map[], EntriesOf(env, payloads))
  {
    var entries := EntriesOf(env, payloads);
    forall e, e' | e in entries && e' in entries && e.name == e'.name
      ensures e.files == e'.files
    {
      var i :| 0 <= i < |entries| && entries[i] == e;
      var j :| 0 <= j < |entries| && entries[j] == e';
      RevisionNamesIff(PayloadHash(env, payloads[i]), PayloadHash(env, payloads[j]));
      SamePayloadFiles(env, payloads[i], payloads[j]);
    }
  }

  lemma SamePayloadFiles(env: Env, p: Payload, q: Payload)
    requires Faithful(env) && Complete(p) && Complete(q)
    ensures PayloadHash(env, p) == PayloadHash(env, q) ==> PayloadFiles(env, p) == PayloadFiles(env, q)
  {
    if PayloadHash(env, p) == PayloadHash(env, q) {
      SameHashSameFiles(env, p.meta, p.documents.value, p.provenance.value, q.meta, q.documents.value, q.provenance.value);
    }
  }

  function Hashes(env: Env, payloads: seq<Payload>): set<string>
    requires forall i :: 0 <= i < |payloads| ==> Complete(payloads[i])
  {
    set i | 0 <= i < |payloads| :: PayloadHash(env, payloads[i])
  }

  lemma OneNamePerHash(env: Env, payloads: seq<Payload>)
    requires (forall i :: 0 <= i < |payloads| ==> Complete(payloads[i])) && HeadsDiffer(env, payloads)
    ensures |Names(EntriesOf(env, payloads))| == |Hashes(env, payloads)|
  {
    var hashes := Hashes(env, payloads);
    forall a, b | a in hashes && b in hashes && RevisionName(a) == RevisionName(b)
      ensures a == b
    {
      RevisionNamesIff(a, b);
    }
    NamesCount(hashes);
    NamesAreOfHashes(env, payloads);
  }

  lemma NamesAreOfHashes(env: Env, payloads: seq<Payload>)
    requires forall i :: 0 <= i < |payloads| ==> Complete(payloads[i])
    ensures Names(EntriesOf(env, payloads)) == set h | h in Hashes(env, payloads) :: RevisionName(h)
  {
    var hashes, entries := Hashes(env, payloads), EntriesOf(env, payloads);
    forall name | name in Names(entries)
      ensures exists h :: h in hashes && RevisionName(h) == name
    {
      var e :| e in entries && e.name == name;
      var i :| 0 <= i < |entries| && entries[i] == e;
      assert PayloadHash(env, payloads[i]) in hashes;
    }
    forall h | h in hashes
      ensures RevisionName(h) in Names(entries)
    {
      var i :| 0 <= i < |payloads| && PayloadHash(env, payloads[i]) == h;
      assert entries[i] in entries;
    }
  }

  // Complete payloads whose hashes differ within the first twenty characters, published one after the other into an empty
  // root: no call conflicts, each answers with its own name, the root holds the files of each, and there is one directory
  // for each hash.
  lemma DifferentHashesDifferentDirectories(env: Env, payloads: seq<Payload>)
    requires Faithful(env) && (forall i :: 0 <= i < |payloads| ==> Complete(payloads[i])) && HeadsDiffer(env, payloads)
    ensures var after, answers := PublishAll(env, map[], payloads), Answers(env, map[], payloads);
            && |answers| == |payloads|
            && (forall i :: 0 <= i < |payloads| ==> PublishedAs(after, answers[i], PayloadHash(env, payloads[i]), PayloadFiles(env, payloads[i])))
            && |after.Keys| == |Hashes(env, payloads)|
  {
    var entries := EntriesOf(env, payloads);
    PublishAllPuts(env, map[], payloads, EntriesOf(env, payloads));
    EntriesAgree(env, payloads);
    StoreGrows(map[], entries, "");
    OneNamePerHash(env, payloads);
    assert PublishAll(env, map[], payloads).Keys == Names(entries);
    forall i | 0 <= i < |payloads|
      ensures PublishedAs(PublishAll(env, map[], payloads), Answers(env, map[], payloads)[i], PayloadHash(env, payloads[i]), PayloadFiles(env, payloads[i]))
    {
      assert entries[i] == EntryOf(env, payloads[i]);
      AgreeingEntryIsPut(map[], entries, i);
      RevisionNamesIff(PayloadHash(env, payloads[i]), "");
    }
  }

  ghost predicate PublishedAs(store: Store, answer: Result<string, PublishError>, hash: string, files: Directory) {
    var name := "corpus_" + if |hash| < 20 then hash else hash[..20];
    answer == Ok(name) && name in store && store[name] == files
  }
}
