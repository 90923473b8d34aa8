/**
 Dataset materializations, internal/dataset/service.go and manager.go: one record per dataset version and compute
 resource, moved by explicit requests, by the outcome of asynchronous transfer jobs, and by a background manager.

 The remote file system, the transfer service and the store are an environment; what they answer in one call is an
 argument.  Timestamps and byte counts are left out.  A dataset version never changes once registered.
 */
module Materialization {
  import opened Outcomes

  type DatasetID = string
  type ResourceID = string
  type JobID = string
  type Revision = string

  datatype State = Planned | Transferring | Verifying | Ready | Failed

  datatype JobState =
    | JobQueued | JobPlanning | JobTransferring | JobVerifying | JobPromoting
    | JobCompleted | JobBlocked | JobFailed | JobCancelling | JobCancelled

  datatype Job = Job(state: JobState, lastError: string)

  datatype Dataset = Dataset(uri: string, revision: Revision, manifest: Revision)

  function Pinned(d: Dataset): Revision {
    if d.revision != "" then d.revision else d.manifest
  }

  type Key = (DatasetID, ResourceID)

  datatype Record = Record(
    dataset: DatasetID, resource: ResourceID, path: string, state: State, verified: Revision, transfer: JobID, lastError: string)

  datatype CacheKey = CacheKey(uri: string, resource: ResourceID, path: string)

  // A recorded cache placement: its revision, and the dataset whose materialization recorded it last.
  datatype CacheEntry = CacheEntry(revision: Revision, dataset: DatasetID)

  datatype DB = DB(
    datasets: map<DatasetID, Dataset>, resources: set<ResourceID>, jobs: map<JobID, Job>,
    records: map<Key, Record>, caches: map<CacheKey, CacheEntry>)

  // What a look at the destination shows.
  datatype Probe = StatFailed(error: string) | Missing | HashFailed(error: string) | Found(revision: Revision)

  datatype MatError = NotFound | NoPinnedRevision | Inspect(error: string) | Conflict(expected: Revision, actual: Revision) | PlanFailed | SaveFailed

  // ----- What each operation decides to save -----

  function MaterializeOutcome(id: DatasetID, d: Dataset, resource: ResourceID, path: string, probe: Probe, created: Option<(JobID, Job)>):
    Result<Record, MatError>
  {
    var revision := Pinned(d);
    if revision == "" then Err(NoPinnedRevision)
    else
      match probe
      case StatFailed(error) => Err(Inspect(error))
      case HashFailed(error) => Err(Inspect(error))
      case Found(actual) =>
        if actual != revision then Err(Conflict(revision, actual))
        else Ok(Record(id, resource, path, Ready, actual, "", ""))
      case Missing =>
        match created
        case None => Err(PlanFailed)
        case Some((job, j)) =>
          if j.state == JobCompleted then Ok(Record(id, resource, path, Ready, revision, job, ""))
          else Ok(Record(id, resource, path, Transferring, "", job, ""))
  }

  function ReconcileOutcome(r: Record, job: Job, d: Dataset): Record {
    match job.state
    case JobCompleted => r.(state := Ready, verified := Pinned(d))
    case JobFailed => r.(state := Failed, lastError := job.lastError)
    case JobBlocked => r.(state := Failed, lastError := job.lastError)
    case JobCancelled => r.(state := Failed, lastError := job.lastError)
    case JobVerifying => r.(state := Verifying)
    case JobPromoting => r.(state := Verifying)
    case _ => r.(state := Transferring)
  }

  function VerifyOutcome(id: DatasetID, d: Dataset, resource: ResourceID, path: string, probe: Probe): Record {
    var r := Record(id, resource, path, Verifying, "", "", "");
    match probe
    case StatFailed(error) => r.(state := Failed, lastError := error)
    case Missing => r.(state := Failed, lastError := "dataset cache is missing")
    case HashFailed(error) => r.(state := Failed, lastError := error)
    case Found(actual) =>
      if actual != Pinned(d) then r.(state := Failed, lastError := "conflict", verified := actual)
      else r.(state := Ready, verified := actual)
  }

  function EvictedOutcome(r: Record): Record {
    r.(state := Failed, lastError := "cache evicted by confirmed managed operation", verified := "")
  }

  // ----- The store -----

  predicate CanSave(db: DB, r: Record) {
    r.dataset in db.datasets && r.resource in db.resources
  }

  function Save(db: DB, r: Record): DB {
    db.(records := db.records[(r.dataset, r.resource) := r])
  }

  // The cache placement that follows a record becoming Ready; datasets without a logical path have none.
  function RecordCache(db: DB, d: Dataset, r: Record): DB {
    if d.uri == "" then db
    else db.(caches := db.caches[CacheKey(d.uri, r.resource, r.path) := CacheEntry(r.verified, r.dataset)])
  }

  // The record a reconciliation would save, if it gets that far.
  function ReconcileRead(db: DB, key: Key): Option<Record> {
    if key !in db.records then None
    else
      var r := db.records[key];
      if r.transfer == "" || r.transfer !in db.jobs || key.0 !in db.datasets then None
      else Some(ReconcileOutcome(r, db.jobs[r.transfer], db.datasets[key.0]))
  }

  function Reconcile(db: DB, key: Key): DB {
    var read := ReconcileRead(db, key);
    if read.None? || !CanSave(db, read.value) then db
    else if read.value.state == Ready then RecordCache(Save(db, read.value), db.datasets[key.0], read.value)
    else Save(db, read.value)
  }

  predicate InFlight(r: Record) {
    r.transfer != "" && (r.state == Transferring || r.state == Verifying)
  }

  // One pass of the manager over a listing of the records.
  function Pass(db: DB, items: seq<Record>): DB
    decreases |items|
  {
    if items == [] then db
    else if InFlight(items[0]) then Pass(Reconcile(db, (items[0].dataset, items[0].resource)), items[1..])
    else Pass(db, items[1..])
  }

  // ----- A Ready record names the pinned revision -----

  ghost predicate RecordSound(datasets: map<DatasetID, Dataset>, r: Record) {
    r.dataset in datasets && (r.state == Ready ==> r.verified == Pinned(datasets[r.dataset]))
  }

  ghost predicate Sound(db: DB) {
    && (forall key :: key in db.records ==>
          (db.records[key].dataset, db.records[key].resource) == key && RecordSound(db.datasets, db.records[key]))
    && (forall c :: c in db.caches ==>
          && db.caches[c].dataset in db.datasets
          && db.datasets[db.caches[c].dataset].uri == c.uri
          && db.caches[c].revision == Pinned(db.datasets[db.caches[c].dataset]))
  }

  // Requests read in one step and save in a later one, so a record may be saved after others have moved on.
  datatype World = World(db: DB, saving: seq<Record>)

  datatype Event =
    | BeginMaterialize(id: DatasetID, resource: ResourceID, path: string, probe: Probe, created: Option<(JobID, Job)>)
    | BeginReconcile(key: Key)
    | BeginVerify(id: DatasetID, resource: ResourceID, path: string, probe: Probe)
    | BeginEvicted(key: Key)
    | Commit(i: nat, recordsCache: bool)
    | JobProgress(job: JobID, state: Job)

  function Begin(w: World, r: Record): World {
    w.(saving := w.saving + [r])
  }

  function Step(w: World, e: Event): World {
    var db := w.db;
    match e
    case BeginMaterialize(id, resource, path, probe, created) =>
      if id !in db.datasets || resource !in db.resources then w
      else
        var outcome := MaterializeOutcome(id, db.datasets[id], resource, path, probe, created);
        if outcome.Err? then w else Begin(w, outcome.value)
    case BeginReconcile(key) =>
      var read := ReconcileRead(db, key);
      if read.None? then w else Begin(w, read.value)
    case BeginVerify(id, resource, path, probe) =>
      if id !in db.datasets || resource !in db.resources then w
      else Begin(w, VerifyOutcome(id, db.datasets[id], resource, path, probe))
    case BeginEvicted(key) =>
      if key !in db.records then w else Begin(w, EvictedOutcome(db.records[key]))
    case Commit(i, recordsCache) =>
      if i >= |w.saving| then w
      else
        var r := w.saving[i];
        var saving := w.saving[..i] + w.saving[i + 1..];
        if !CanSave(db, r) then World(db, saving)
        else if r.state == Ready && recordsCache then World(RecordCache(Save(db, r), db.datasets[r.dataset], r), saving)
        else World(Save(db, r), saving)
    case JobProgress(job, state) => w.(db := db.(jobs := db.jobs[job := state]))
  }

  function Run(w: World, events: seq<Event>): World
    decreases |events|
  {
    if events == [] then w else Run(Step(w, events[0]), events[1..])
  }

  // What is begun lands when its save does, and a reconciliation by itself is the one the manager makes.
  lemma BeginsAndLands(db: DB, e: Event)
    requires !e.Commit? && !e.JobProgress?
    ensures Step(World(db, []), e).db == db && |Step(World(db, []), e).saving| <= 1
    ensures var w := Step(World(db, []), e);
            w.saving != [] && w.saving[0].dataset in db.datasets && w.saving[0].resource in db.resources ==>
              && var r := w.saving[0];
                 Step(w, Commit(0, true)) ==
                 World(if r.state == Ready then RecordCache(Save(db, r), db.datasets[r.dataset], r) else Save(db, r), [])
  {
  }

  lemma RequestsAreBegun(db: DB, id: DatasetID, resource: ResourceID, path: string, probe: Probe, created: Option<(JobID, Job)>, key: Key)
    requires id in db.datasets && resource in db.resources
    ensures var outcome := MaterializeOutcome(id, db.datasets[id], resource, path, probe, created);
            Step(World(db, []), BeginMaterialize(id, resource, path, probe, created)).saving == if outcome.Ok? then [outcome.value] else []
    ensures Step(World(db, []), BeginVerify(id, resource, path, probe)).saving == [VerifyOutcome(id, db.datasets[id], resource, path, probe)]
    ensures key in db.records ==> Step(World(db, []), BeginEvicted(key)).saving == [EvictedOutcome(db.records[key])]
  {
  }

  lemma ReconcileIsARun(db: DB, key: Key)
    requires key in db.records && (db.records[key].dataset, db.records[key].resource) == key
    ensures Step(Step(World(db, []), BeginReconcile(key)), Commit(0, true)) == World(Reconcile(db, key), [])
  {
  }

  ghost predicate WorldSound(w: World) {
    Sound(w.db) && forall i :: 0 <= i < |w.saving| ==> RecordSound(w.db.datasets, w.saving[i])
  }

  lemma OutcomesSound(db: DB, id: DatasetID, resource: ResourceID, path: string, probe: Probe, created: Option<(JobID, Job)>)
    requires id in db.datasets
    ensures var outcome := MaterializeOutcome(id, db.datasets[id], resource, path, probe, created);
            outcome.Ok? ==> RecordSound(db.datasets, outcome.value)
    ensures RecordSound(db.datasets, VerifyOutcome(id, db.datasets[id], resource, path, probe))
  {
  }

  lemma ReconcileReadSound(db: DB, key: Key)
    requires Sound(db) && ReconcileRead(db, key).Some?
    ensures var r := ReconcileRead(db, key).value; RecordSound(db.datasets, r) && (r.dataset, r.resource) == key
  {
  }

  lemma SaveKeepsSound(db: DB, r: Record, recordsCache: bool)
    requires Sound(db) && RecordSound(db.datasets, r)
    ensures Sound(Save(db, r))
    ensures r.state == Ready ==> Sound(RecordCache(Save(db, r), db.datasets[r.dataset], r))
  {
  }

  lemma StepKeepsSound(w: World, e: Event)
    requires WorldSound(w)
    ensures WorldSound(Step(w, e)) && Step(w, e).db.datasets == w.db.datasets
  {
    match e
    case BeginMaterialize(id, resource, path, probe, created) =>
      if id in w.db.datasets {
        OutcomesSound(w.db, id, resource, path, probe, created);
      }
    case BeginVerify(id, resource, path, probe) =>
      if id in w.db.datasets {
        OutcomesSound(w.db, id, resource, path, probe, None);
      }
    case BeginReconcile(key) =>
      if ReconcileRead(w.db, key).Some? {
        ReconcileReadSound(w.db, key);
      }
    case BeginEvicted(_) =>
    case Commit(i, recordsCache) =>
      if i < |w.saving| {
        SaveKeepsSound(w.db, w.saving[i], recordsCache);
      }
    case JobProgress(_, _) =>
  }

  // In every interleaving of requests, manager passes, evictions and job progress, with saves delayed at will, a
  // Ready record carries the revision its dataset is pinned to, and so does every recorded cache placement.
  lemma {:induction false} ReadyMeansPinned(w: World, events: seq<Event>)
    requires WorldSound(w)
    ensures WorldSound(Run(w, events)) && Run(w, events).db.datasets == w.db.datasets
    decreases |events|
  {
    if events != [] {
      StepKeepsSound(w, events[0]);
      ReadyMeansPinned(Step(w, events[0]), events[1..]);
    }
  }

  // ----- Which state each operation leaves -----

  // Materializing: a record is ready exactly when the destination already holds the pinned revision, or nothing is there
  // and the created job is complete; it is transferring exactly when nothing is there and the job is under way.
  lemma MaterializeMeans(id: DatasetID, d: Dataset, resource: ResourceID, path: string, probe: Probe, created: Option<(JobID, Job)>)
    ensures var outcome, pinned := MaterializeOutcome(id, d, resource, path, probe, created), if d.revision != "" then d.revision else d.manifest;
            && (outcome == Err(NoPinnedRevision) <==> pinned == "")
            && (pinned != "" ==>
                  && (probe == Found(pinned) ==> outcome == Ok(Record(id, resource, path, Ready, pinned, "", "")))
                  && (probe.Found? && probe.revision != pinned ==> outcome == Err(Conflict(pinned, probe.revision)))
                  && (probe.StatFailed? || probe.HashFailed? ==> outcome == Err(Inspect(probe.error)))
                  && (probe == Missing ==>
                        && (outcome == Err(PlanFailed) <==> created == None)
                        && forall job: JobID, j: Job :: created == Some((job, j)) ==>
                             outcome == Ok(if j.state == JobCompleted then Record(id, resource, path, Ready, pinned, job, "")
                                           else Record(id, resource, path, Transferring, "", job, ""))))
            && (outcome.Ok? && outcome.value.state == Ready <==>
                  pinned != "" && (probe == Found(pinned) || (probe == Missing && created.Some? && created.value.1.state == JobCompleted)))
  {
  }

  // Verifying: ready exactly when the destination holds the pinned revision, failed with the reason otherwise.
  lemma VerifyMeans(id: DatasetID, d: Dataset, resource: ResourceID, path: string, probe: Probe)
    ensures var r, pinned := VerifyOutcome(id, d, resource, path, probe), if d.revision != "" then d.revision else d.manifest;
            && (r.dataset, r.resource, r.path, r.transfer) == (id, resource, path, "")
            && (r.state == Ready <==> probe == Found(pinned))
            && (r.state != Ready ==> r.state == Failed)
            && r.verified == (if probe.Found? then probe.revision else "")
            && (probe.StatFailed? || probe.HashFailed? ==> r.lastError == probe.error)
            && (probe == Missing ==> r.lastError == "dataset cache is missing")
            && (r.state == Ready ==> r.lastError == "")
  {
  }

  // Reconciling: the record follows its job. Ready exactly when the job is complete, failed with the job's error exactly
  // when it failed, was blocked or was cancelled, verifying exactly when it verifies or promotes, transferring otherwise.
  // Nothing else changes, but that a ready record of a dataset with a logical path leaves a cache placement.
  lemma ReconcileMeans(db: DB, key: Key)
    requires key in db.records && (db.records[key].dataset, db.records[key].resource) == key
    requires db.records[key].transfer != "" && db.records[key].transfer in db.jobs
    requires key.0 in db.datasets && key.1 in db.resources
    ensures var r, job, d := db.records[key], db.jobs[db.records[key].transfer], db.datasets[key.0];
            var pinned, db' := if d.revision != "" then d.revision else d.manifest, Reconcile(db, key);
            && key in db'.records && db'.records == db.records[key := db'.records[key]]
            && var r' := db'.records[key];
               && (r'.state == Ready <==> job.state == JobCompleted)
               && (r'.state == Failed <==> job.state in {JobFailed, JobBlocked, JobCancelled})
               && (r'.state == Verifying <==> job.state in {JobVerifying, JobPromoting})
               && (r'.state == Transferring <==> job.state in {JobQueued, JobPlanning, JobTransferring, JobCancelling})
               && r'.verified == (if job.state == JobCompleted then pinned else r.verified)
               && r'.lastError == (if r'.state == Failed then job.lastError else r.lastError)
               && (r'.dataset, r'.resource, r'.path, r'.transfer) == (r.dataset, r.resource, r.path, r.transfer)
               && db'.caches == (if r'.state == Ready && d.uri != "" then db.caches[CacheKey(d.uri, key.1, r.path) := CacheEntry(pinned, key.0)]
                                 else db.caches)
               && (db'.datasets, db'.resources, db'.jobs) == (db.datasets, db.resources, db.jobs)
  {
  }

  // A record without a job, or whose job, dataset or resource is not there, is left alone.
  lemma ReconcileSkips(db: DB, key: Key)
    requires key in db.records ==>
               && (db.records[key].dataset, db.records[key].resource) == key
               && (db.records[key].transfer == "" || db.records[key].transfer !in db.jobs || key.0 !in db.datasets || key.1 !in db.resources)
    ensures Reconcile(db, key) == db
  {
  }

  // The record of an evicted cache keeps its identity and transfer, is failed, and names no revision.
  lemma EvictedMeans(r: Record)
    ensures var r' := EvictedOutcome(r);
            && r'.state == Failed && r'.verified == "" && r'.lastError != ""
            && (r'.dataset, r'.resource, r'.path, r'.transfer) == (r.dataset, r.resource, r.path, r.transfer)
  {
  }

  // ----- What stands behind a ready record -----

  // Jobs that have been seen complete, and destinations where the pinned revision was found.
  datatype Evidence = Evidence(completed: set<JobID>, found: set<(DatasetID, ResourceID, string)>)

  function LookedAt(seen: Evidence, db: DB, id: DatasetID, resource: ResourceID, path: string, probe: Probe): Evidence {
    if id in db.datasets && probe == Found(if db.datasets[id].revision != "" then db.datasets[id].revision else db.datasets[id].manifest)
    then seen.(found := seen.found + {(id, resource, path)}) else seen
  }

  function Grow(seen: Evidence, db: DB, e: Event): Evidence {
    match e
    case JobProgress(job, state) => if state.state == JobCompleted then seen.(completed := seen.completed + {job}) else seen
    case BeginMaterialize(id, resource, path, probe, created) =>
      var looked := LookedAt(seen, db, id, resource, path, probe);
      if created.Some? && created.value.1.state == JobCompleted then looked.(completed := looked.completed + {created.value.0}) else looked
    case BeginVerify(id, resource, path, probe) => LookedAt(seen, db, id, resource, path, probe)
    case _ => seen
  }

  function GrowAll(seen: Evidence, w: World, events: seq<Event>): Evidence
    decreases |events|
  {
    if events == [] then seen else GrowAll(Grow(seen, w.db, events[0]), Step(w, events[0]), events[1..])
  }

  ghost predicate Backed(seen: Evidence, r: Record) {
    r.state == Ready ==> r.transfer in seen.completed || (r.dataset, r.resource, r.path) in seen.found
  }

  ghost predicate AllBacked(w: World, seen: Evidence) {
    && (forall job :: job in w.db.jobs && w.db.jobs[job].state == JobCompleted ==> job in seen.completed)
    && (forall key :: key in w.db.records ==> Backed(seen, w.db.records[key]))
    && (forall i :: 0 <= i < |w.saving| ==> Backed(seen, w.saving[i]))
  }

  lemma StepKeepsBacked(w: World, seen: Evidence, e: Event)
    requires AllBacked(w, seen)
    ensures AllBacked(Step(w, e), Grow(seen, w.db, e))
  {
    var seen' := Grow(seen, w.db, e);
    assert seen.completed <= seen'.completed && seen.found <= seen'.found;
    match e
    case BeginMaterialize(id, resource, path, probe, created) =>
      if id in w.db.datasets {
        MaterializeMeans(id, w.db.datasets[id], resource, path, probe, created);
      }
    case BeginVerify(id, resource, path, probe) =>
      if id in w.db.datasets {
        VerifyMeans(id, w.db.datasets[id], resource, path, probe);
      }
    case _ =>
  }

  // Over any run, a ready record comes from a job that was complete or from a look that found the pinned revision at its
  // destination.
  lemma {:induction false} ReadyIsBacked(w: World, seen: Evidence, events: seq<Event>)
    requires AllBacked(w, seen)
    ensures AllBacked(Run(w, events), GrowAll(seen, w, events))
    decreases |events|
  {
    if events != [] {
      StepKeepsBacked(w, seen, events[0]);
      ReadyIsBacked(Step(w, events[0]), Grow(seen, w.db, events[0]), events[1..]);
    }
  }

  // ----- The manager settles what is in flight -----

  predicate Terminal(state: JobState) {
    state == JobCompleted || state == JobFailed || state == JobBlocked || state == JobCancelled
  }

  // Everything a reconciliation of this record needs is there, and its job has come to an end.
  predicate CanSettle(db: DB, r: Record) {
    && r.transfer in db.jobs && Terminal(db.jobs[r.transfer].state)
    && r.dataset in db.datasets && r.resource in db.resources
  }

  ghost predicate KeysMatch(db: DB) {
    forall key :: key in db.records ==> (db.records[key].dataset, db.records[key].resource) == key
  }

  // A listing of all records, in any order.
  ghost predicate ListsRecords(db: DB, items: seq<Record>) {
    && (forall i :: 0 <= i < |items| ==> (items[i].dataset, items[i].resource) in db.records
                                         && db.records[(items[i].dataset, items[i].resource)] == items[i])
    && (forall key :: key in db.records ==> db.records[key] in items)
  }

  lemma ReconcileChangesOne(db: DB, key: Key)
    requires KeysMatch(db)
    ensures var db' := Reconcile(db, key);
            && KeysMatch(db') && db'.records.Keys == db.records.Keys
            && db'.datasets == db.datasets && db'.resources == db.resources && db'.jobs == db.jobs
            && (forall k :: k in db.records && k != key ==> db'.records[k] == db.records[k])
            && (key in db.records ==> db'.records[key].transfer == db.records[key].transfer)
  {
  }

  lemma ReconcileSettlesIff(db: DB, key: Key)
    requires KeysMatch(db) && key in db.records && InFlight(db.records[key])
    ensures key in Reconcile(db, key).records
    ensures InFlight(Reconcile(db, key).records[key]) <==> !CanSettle(db, db.records[key])
  {
  }

  lemma SettledStays(db: DB, key: Key)
    requires KeysMatch(db) && key in db.records && db.records[key].transfer != ""
    requires InFlight(db.records[key]) <==> !CanSettle(db, db.records[key])
    ensures key in Reconcile(db, key).records
    ensures InFlight(Reconcile(db, key).records[key]) <==> !CanSettle(db, db.records[key])
  {
  }

  // After a pass an in-flight record is still in flight exactly when its job is gone or unfinished, or its dataset
  // or resource is gone.
  lemma {:induction false} PassSettles(db: DB, items: seq<Record>, key: Key)
    requires KeysMatch(db) && key in db.records && InFlight(db.records[key])
    requires exists i :: 0 <= i < |items| && items[i] == db.records[key]
    ensures key in Pass(db, items).records
    ensures InFlight(Pass(db, items).records[key]) <==> !CanSettle(db, db.records[key])
    decreases |items|
  {
    var first := (items[0].dataset, items[0].resource);
    if InFlight(items[0]) {
      ReconcileChangesOne(db, first);
      var db' := Reconcile(db, first);
      if first == key {
        ReconcileSettlesIff(db, key);
        PassKeepsSettled(db', items[1..], key);
      } else {
        var i :| 0 <= i < |items| && items[i] == db.records[key];
        assert items[1..][i - 1] == db.records[key];
        PassSettles(db', items[1..], key);
      }
    } else {
      var i :| 0 <= i < |items| && items[i] == db.records[key];
      assert items[1..][i - 1] == db.records[key];
      PassSettles(db, items[1..], key);
    }
  }

  // Whatever the rest of a pass does, it leaves whether this record can be settled as it is.
  lemma {:induction false} PassKeepsSettled(db: DB, items: seq<Record>, key: Key)
    requires KeysMatch(db) && key in db.records && db.records[key].transfer != ""
    requires InFlight(db.records[key]) <==> !CanSettle(db, db.records[key])
    ensures key in Pass(db, items).records
    ensures Pass(db, items).records[key].transfer == db.records[key].transfer
    ensures InFlight(Pass(db, items).records[key]) <==> !CanSettle(db, db.records[key])
    decreases |items|
  {
    if items != [] {
      var first := (items[0].dataset, items[0].resource);
      if InFlight(items[0]) {
        ReconcileChangesOne(db, first);
        if first == key {
          SettledStays(db, key);
        }
        PassKeepsSettled(Reconcile(db, first), items[1..], key);
      } else {
        PassKeepsSettled(db, items[1..], key);
      }
    }
  }

  lemma {:induction false} IdlePass(db: DB, items: seq<Record>)
    requires forall i :: 0 <= i < |items| ==> !InFlight(items[i])
    ensures Pass(db, items) == db
    decreases |items|
  {
    if items != [] {
      IdlePass(db, items[1..]);
    }
  }

  lemma {:induction false} PassKeepsKeys(db: DB, items: seq<Record>)
    requires KeysMatch(db)
    ensures KeysMatch(Pass(db, items)) && Pass(db, items).records.Keys == db.records.Keys
    ensures forall key :: key in db.records && (forall i :: 0 <= i < |items| && InFlight(items[i]) ==> (items[i].dataset, items[i].resource) != key) ==>
                            Pass(db, items).records[key] == db.records[key]
    decreases |items|
  {
    if items != [] {
      var first := (items[0].dataset, items[0].resource);
      if InFlight(items[0]) {
        ReconcileChangesOne(db, first);
        PassKeepsKeys(Reconcile(db, first), items[1..]);
      } else {
        PassKeepsKeys(db, items[1..]);
      }
      forall key | key in db.records && (forall i :: 0 <= i < |items| && InFlight(items[i]) ==> (items[i].dataset, items[i].resource) != key)
        ensures Pass(db, items).records[key] == db.records[key]
      {
        assert forall i :: 0 <= i < |items| - 1 ==> items[1..][i] == items[i + 1];
      }
    }
  }

  // A pass reconciles each record that is transferring or verifying with a job, and leaves the others as they are.
  lemma PassReconcilesEach(db: DB, items: seq<Record>, key: Key)
    requires KeysMatch(db) && ListsRecords(db, items) && key in db.records
    ensures key in Pass(db, items).records && key in Reconcile(db, key).records
    ensures var r := db.records[key];
            Pass(db, items).records[key] ==
            if r.transfer != "" && r.state in {Transferring, Verifying} then Reconcile(db, key).records[key] else r
  {
    PassFrom(db, db, items, key);
  }

  ghost predicate BehindSomeOf(db0: DB, db: DB, key: Key) {
    && KeysMatch(db0) && KeysMatch(db) && key in db0.records && key in db.records && key in Reconcile(db0, key).records
    && (db.datasets, db.resources, db.jobs) == (db0.datasets, db0.resources, db0.jobs)
    && (db.records[key] == db0.records[key] || db.records[key] == Reconcile(db0, key).records[key])
  }

  lemma ReconcileBehind(db0: DB, db: DB, key: Key, other: Key)
    requires BehindSomeOf(db0, db, key)
    ensures BehindSomeOf(db0, Reconcile(db, other), key)
    ensures Reconcile(db, other).records[key] == if other == key then Reconcile(db0, key).records[key] else db.records[key]
  {
    ReconcileChangesOne(db, other);
    if other == key {
      ReconcileTwice(db0, db, key);
    }
  }

  lemma ReconcileTwice(db0: DB, db: DB, key: Key)
    requires BehindSomeOf(db0, db, key) && key in Reconcile(db, key).records
    ensures Reconcile(db, key).records[key] == Reconcile(db0, key).records[key]
  {
    ReconciledRecord(db0, key);
    ReconciledRecord(db, key);
  }

  // The record a reconciliation leaves depends on that record, its job, its dataset and its resource.
  lemma ReconciledRecord(db: DB, key: Key)
    requires KeysMatch(db) && key in db.records && key in Reconcile(db, key).records
    ensures var r := db.records[key];
            Reconcile(db, key).records[key] ==
            if r.transfer != "" && r.transfer in db.jobs && key.0 in db.datasets && key.1 in db.resources
            then ReconcileOutcome(r, db.jobs[r.transfer], db.datasets[key.0]) else r
  {
  }

  lemma {:induction false} PassFrom(db0: DB, db: DB, items: seq<Record>, key: Key)
    requires BehindSomeOf(db0, db, key)
    requires forall i :: 0 <= i < |items| && (items[i].dataset, items[i].resource) == key ==> items[i] == db0.records[key]
    ensures key in Pass(db, items).records
    ensures Pass(db, items).records[key] ==
            if db0.records[key] in items && InFlight(db0.records[key]) then Reconcile(db0, key).records[key] else db.records[key]
    decreases |items|
  {
    if items != [] {
      var other := (items[0].dataset, items[0].resource);
      if InFlight(items[0]) {
        ReconcileBehind(db0, db, key, other);
        PassFrom(db0, Reconcile(db, other), items[1..], key);
      } else {
        PassFrom(db0, db, items[1..], key);
      }
      assert db0.records[key] in items <==> items[0] == db0.records[key] || db0.records[key] in items[1..];
    }
  }

  ghost predicate AllCanSettle(db: DB) {
    forall key :: key in db.records && InFlight(db.records[key]) ==> CanSettle(db, db.records[key])
  }

  // Once every job in use has ended and nothing it needs is missing, one pass leaves nothing in flight, and every
  // later pass changes nothing at all.
  lemma OnePassSettlesEverything(db: DB, items: seq<Record>, later: seq<Record>)
    requires KeysMatch(db) && ListsRecords(db, items) && AllCanSettle(db)
    ensures forall key :: key in Pass(db, items).records ==> !InFlight(Pass(db, items).records[key])
    ensures ListsRecords(Pass(db, items), later) ==> Pass(Pass(db, items), later) == Pass(db, items)
  {
    PassKeepsKeys(db, items);
    forall key | key in db.records
      ensures !InFlight(Pass(db, items).records[key])
    {
      if InFlight(db.records[key]) {
        PassSettles(db, items, key);
      } else {
        forall i | 0 <= i < |items| && InFlight(items[i])
          ensures (items[i].dataset, items[i].resource) != key
        {
        }
      }
    }
    if ListsRecords(Pass(db, items), later) {
      IdlePass(Pass(db, items), later);
    }
  }

  // ----- The service and its manager -----

  class DatasetService {
    var db: DB

    constructor (db: DB)
      ensures this.db == db
    {
      this.db := db;
    }

    method SaveMaterialization(r: Record, storeFails: bool) returns (ok: bool)
      modifies this
      ensures ok <==> CanSave(old(db), r) && !storeFails
      ensures db == if ok then Save(old(db), r) else old(db)
    {
      ok := r.dataset in db.datasets && r.resource in db.resources && !storeFails;
      if ok {
        db := db.(records := db.records[(r.dataset, r.resource) := r]);
      }
    }

    method RecordCachePlacement(d: Dataset, r: Record, storeFails: bool) returns (ok: bool)
      modifies this
      ensures ok <==> d.uri == "" || !storeFails
      ensures db == if ok then RecordCache(old(db), d, r) else old(db)
    {
      if d.uri == "" {
        return true;
      }
      if storeFails {
        return false;
      }
      db := db.(caches := db.caches[CacheKey(d.uri, r.resource, r.path) := CacheEntry(r.verified, r.dataset)]);
      return true;
    }

    method Materialize(id: DatasetID, resource: ResourceID, path: string, probe: Probe, created: Option<(JobID, Job)>,
                       saveFails: bool, cacheFails: bool)
      returns (r: Result<Record, MatError>)
      modifies this
      ensures id in old(db).datasets && resource in old(db).resources ==>
                var d := old(db).datasets[id];
                var outcome := MaterializeOutcome(id, d, resource, path, probe, created);
                && (r.Ok? <==> outcome.Ok? && !saveFails && !(probe.Found? && d.uri != "" && cacheFails))
                && (r.Ok? || outcome.Err? ==> r == outcome)
                && (r.Err? && outcome.Ok? ==> r == Err(SaveFailed))
                && db == if outcome.Err? || saveFails then old(db)
                         else if probe.Found? && !cacheFails then RecordCache(Save(old(db), outcome.value), d, outcome.value)
                         else Save(old(db), outcome.value)
      ensures id !in old(db).datasets || resource !in old(db).resources ==>
                && r == Err(if id in old(db).datasets && Pinned(old(db).datasets[id]) == "" then NoPinnedRevision else NotFound)
                && db == old(db)
    {
      if id !in db.datasets {
        return Err(NotFound);
      }
      var d := db.datasets[id];
      var revision := d.revision;
      if revision == "" {
        revision := d.manifest;
      }
      if revision == "" {
        return Err(NoPinnedRevision);
      }
      if resource !in db.resources {
        return Err(NotFound);
      }
      var m := Record(id, resource, path, Planned, "", "", "");
      match probe {
        case StatFailed(error) => return Err(Inspect(error));
        case HashFailed(error) => return Err(Inspect(error));
        case Found(actual) =>
          if actual != revision {
            return Err(Conflict(revision, actual));
          }
          m := m.(state := Ready, verified := actual);
          var saved := SaveMaterialization(m, saveFails);
          if !saved {
            return Err(SaveFailed);
          }
          var recorded := RecordCachePlacement(d, m, cacheFails);
          if !recorded {
            return Err(SaveFailed);
          }
          return Ok(m);
        case Missing =>
          if created.None? {
            return Err(PlanFailed);
          }
          var (job, j) := created.value;
          m := m.(state := Transferring, transfer := job);
          if j.state == JobCompleted {
            m := m.(state := Ready, verified := revision);
          }
          var saved := SaveMaterialization(m, saveFails);
          if !saved {
            return Err(SaveFailed);
          }
          return Ok(m);
      }
    }

    method ReconcileMaterialization(key: Key, saveFails: bool, cacheFails: bool)
      modifies this
      ensures !saveFails && !cacheFails ==> db == Reconcile(old(db), key)
      ensures saveFails ==> db == old(db)
      ensures !saveFails && cacheFails ==>
                var read := ReconcileRead(old(db), key);
                db == if read.Some? && CanSave(old(db), read.value) then Save(old(db), read.value) else old(db)
    {
      if key !in db.records || db.records[key].transfer == "" {
        return;
      }
      var m := db.records[key];
      if m.transfer !in db.jobs || key.0 !in db.datasets {
        return;
      }
      var job, d := db.jobs[m.transfer], db.datasets[key.0];
      match job.state {
        case JobCompleted =>
          m := m.(state := Ready, verified := d.revision);
          if m.verified == "" {
            m := m.(verified := d.manifest);
          }
        case JobFailed => m := m.(state := Failed, lastError := job.lastError);
        case JobBlocked => m := m.(state := Failed, lastError := job.lastError);
        case JobCancelled => m := m.(state := Failed, lastError := job.lastError);
        case JobVerifying => m := m.(state := Verifying);
        case JobPromoting => m := m.(state := Verifying);
        case _ => m := m.(state := Transferring);
      }
      var saved := SaveMaterialization(m, saveFails);
      if saved && m.state == Ready {
        var recorded := RecordCachePlacement(d, m, cacheFails);
      }
    }

    method Verify(id: DatasetID, resource: ResourceID, path: string, probe: Probe, saveFails: bool, cacheFails: bool)
      returns (r: Result<Record, MatError>)
      modifies this
      ensures id in old(db).datasets && resource in old(db).resources ==>
                var d := old(db).datasets[id];
                var outcome := VerifyOutcome(id, d, resource, path, probe);
                && (r.Ok? <==> outcome.state == Ready && !saveFails && !(d.uri != "" && cacheFails))
                && (r.Ok? ==> r.value == outcome)
                && (r.Err? && outcome.state == Ready ==> r == Err(SaveFailed))
                && (outcome.state != Ready ==> r == Err(match probe
                                                        case StatFailed(error) => Inspect(error)
                                                        case HashFailed(error) => Inspect(error)
                                                        case Missing => NotFound
                                                        case Found(actual) => Conflict(if d.revision != "" then d.revision else d.manifest, actual)))
                && db == if saveFails then old(db)
                         else if outcome.state == Ready && !cacheFails then RecordCache(Save(old(db), outcome), d, outcome)
                         else Save(old(db), outcome)
      ensures id !in old(db).datasets || resource !in old(db).resources ==> r == Err(NotFound) && db == old(db)
    {
      if id !in db.datasets || resource !in db.resources {
        return Err(NotFound);
      }
      var d := db.datasets[id];
      var m := Record(id, resource, path, Verifying, "", "", "");
      var expected := d.revision;
      if expected == "" {
        expected := d.manifest;
      }
      var failure: Option<MatError> := None;
      match probe {
        case StatFailed(error) => m, failure := m.(state := Failed, lastError := error), Some(Inspect(error));
        case Missing => m, failure := m.(state := Failed, lastError := "dataset cache is missing"), Some(NotFound);
        case HashFailed(error) => m, failure := m.(state := Failed, lastError := error), Some(Inspect(error));
        case Found(actual) =>
          if actual != expected {
            m := m.(state := Failed, lastError := "conflict", verified := actual);
            failure := Some(Conflict(expected, actual));
          }
      }
      if failure.Some? {
        var ignored := SaveMaterialization(m, saveFails);
        return Err(failure.value);
      }
      m := m.(state := Ready, lastError := "", verified := probe.revision);
      var saved := SaveMaterialization(m, saveFails);
      if !saved {
        return Err(SaveFailed);
      }
      var recorded := RecordCachePlacement(d, m, cacheFails);
      if !recorded {
        return Err(SaveFailed);
      }
      return Ok(m);
    }

    method ManagerPass(items: seq<Record>)
      modifies this
      ensures db == Pass(old(db), items)
    {
      assert items[0..] == items;
      for i := 0 to |items|
        invariant Pass(db, items[i..]) == Pass(old(db), items)
      {
        var item := items[i];
        assert items[i..][1..] == items[i + 1..];
        if item.transfer == "" || (item.state != Transferring && item.state != Verifying) {
          continue;
        }
        ReconcileMaterialization((item.dataset, item.resource), false, false);
      }
    }
  }
}
