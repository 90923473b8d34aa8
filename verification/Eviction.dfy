/**
 Managed eviction, internal/filespace/eviction.go: removing one placement of a logical path, never the last live copy
 of its revision.

 A placement stands for a file or a directory on a host, and its revision is the hash of that whole tree, so a removal
 is felt by every placement inside it and around it. One Evict call is one atomic step. The remote file system and the
 store are an environment that may fail at any of the calls; a failing removal may leave the source untouched, damaged
 or moved aside. SHA-256 is taken as collision free where a plan stands for its hash.
 */
module Eviction {
  import opened Outcomes
  import opened RemoteTree

  type PlacementID = string
  type ResourceID = string
  type URI = string
  type Revision = string

  datatype Role = Authoritative | Replica | Cache | Projection

  datatype Desired = WantPresent | WantAbsent

  datatype Observed = SeenPresent | SeenMissing | SeenUnreachable | SeenUnknown

  datatype Placement = Placement(
    id: PlacementID, uri: URI, resource: ResourceID, target: string, path: string,
    role: Role, desired: Desired, observed: Observed, revision: Revision)

  // What is really on the remote disks, and what the store believes.
  datatype Space = Space(disk: Disk, placements: map<PlacementID, Placement>)

  // Where a placement lies: its place on a physical host, or a refusal when it escapes its managed root. Two resources
  // may be one host. And the revision of a tree.
  datatype Env = Env(locate: (ResourceID, string, string) -> Option<Location>, hash: Tree -> Revision)

  function Where(env: Env, p: Placement): Option<Location> {
    env.locate(p.resource, p.target, p.path)
  }

  // An interrupted removal leaves part of the tree at its place, and part under the name it was moved to.
  datatype Removal = Removed | Refused | Interrupted(tombstone: string, left: Option<Tree>, moved: Option<Tree>)

  datatype Recording = Stored | Superseded | Failed

  // How the environment treats one call.
  datatype Faults = Faults(
    resources: set<ResourceID>, statFails: set<Location>, hashFails: set<Location>, permitsRemoval: bool,
    removal: Removal, saveFails: bool, observation: Recording)

  datatype EvictionPlan = EvictionPlan(uri: URI, source: PlacementID, sourcePath: string, revision: Revision, keeper: PlacementID)

  datatype Refusal =
    | NoPlacement | NoResource | OutsideBoundary | StatFailed | SourceMissing | HashFailed | NoLiveCopy
    | PlanChanged | RemovalNotPermitted | PlacementUnknown | RemoveFailed | SaveFailed | ObservationSuperseded

  // ----- Choosing the source -----

  function Priority(p: Placement): nat {
    match p.role
    case Authoritative => 0
    case Replica => 1
    case Cache => 2
    case Projection => 3
  }

  function FirstOn(candidates: seq<Placement>, resource: ResourceID): Option<Placement> {
    if candidates == [] then None
    else if candidates[0].resource == resource then Some(candidates[0])
    else FirstOn(candidates[1..], resource)
  }

  // The head of a stable sort by priority.
  function FirstByPriority(candidates: seq<Placement>): (best: Option<Placement>)
    ensures best.Some? ==> best.value in candidates
    ensures forall p :: p in candidates ==> best.Some? && Priority(best.value) <= Priority(p)
  {
    if candidates == [] then None
    else
      var best := FirstByPriority(candidates[1..]);
      if best.Some? && Priority(best.value) < Priority(candidates[0]) then best else Some(candidates[0])
  }

  // Of candidates with equal priority the earliest is chosen: all before it are worse, none behind it is better.
  lemma {:induction false} FirstByPriorityIsEarliest(candidates: seq<Placement>) returns (i: nat)
    requires candidates != []
    ensures i < |candidates| && FirstByPriority(candidates) == Some(candidates[i])
    ensures forall j :: 0 <= j < i ==> Priority(candidates[i]) < Priority(candidates[j])
    ensures forall j :: i <= j < |candidates| ==> Priority(candidates[i]) <= Priority(candidates[j])
  {
    i := 0;
    var rest := candidates[1..];
    if rest != [] {
      var k := FirstByPriorityIsEarliest(rest);
      if Priority(rest[k]) < Priority(candidates[0]) {
        i := k + 1;
      }
    }
  }

  function SelectPlacement(listed: seq<Placement>, default: Placement, resource: ResourceID): Option<Placement> {
    var known := exists p :: p in listed && p.id == default.id;
    var candidates := if (listed == [] || resource == default.resource) && !known then listed + [default] else listed;
    if resource != "" then FirstOn(candidates, resource) else FirstByPriority(candidates)
  }

  // What a call asks for, without saying how it is looked for. With a resource named: the earliest listed placement on
  // it, or the default when that is on it, none listed is, and none listed has its id.
  ghost predicate AskedOn(listed: seq<Placement>, default: Placement, resource: ResourceID, p: Placement) {
    if exists q :: q in listed && q.resource == resource then EarliestOn(listed, resource, p)
    else p == default && default.resource == resource && forall q :: q in listed ==> q.id != default.id
  }

  ghost predicate EarliestOn(listed: seq<Placement>, resource: ResourceID, p: Placement) {
    exists i :: 0 <= i < |listed| && listed[i] == p && p.resource == resource && forall j :: 0 <= j < i ==> listed[j].resource != resource
  }

  // With none named: the earliest of the best role there is, authoritative before replica before cache before
  // projection; the default when nothing is listed.
  ghost predicate AskedAnywhere(listed: seq<Placement>, default: Placement, p: Placement) {
    if listed == [] then p == default else EarliestOfRole(listed, p.role, p) && forall q :: q in listed ==> !BetterRole(q.role, p.role)
  }

  ghost predicate EarliestOfRole(listed: seq<Placement>, role: Role, p: Placement) {
    exists i :: 0 <= i < |listed| && listed[i] == p && p.role == role && forall j :: 0 <= j < i ==> listed[j].role != role
  }

  ghost predicate BetterRole(a: Role, b: Role) {
    || (a == Authoritative && b != Authoritative)
    || (a == Replica && b in {Cache, Projection})
    || (a == Cache && b == Projection)
  }

  ghost predicate Asked(listed: seq<Placement>, default: Placement, resource: ResourceID, p: Placement) {
    if resource != "" then AskedOn(listed, default, resource, p) else AskedAnywhere(listed, default, p)
  }

  lemma {:induction false} FirstOnMeans(candidates: seq<Placement>, resource: ResourceID)
    ensures FirstOn(candidates, resource).None? <==> forall q :: q in candidates ==> q.resource != resource
    ensures FirstOn(candidates, resource).Some? ==> EarliestOn(candidates, resource, FirstOn(candidates, resource).value)
  {
    if candidates != [] && candidates[0].resource != resource {
      var rest := candidates[1..];
      FirstOnMeans(rest, resource);
      assert forall j :: 1 <= j < |candidates| ==> candidates[j] == rest[j - 1];
      if FirstOn(rest, resource).Some? {
        var i :| && 0 <= i < |rest| && rest[i] == FirstOn(rest, resource).value
                 && forall j :: 0 <= j < i ==> rest[j].resource != resource;
        assert candidates[i + 1] == rest[i];
      }
    } else if candidates != [] {
      assert candidates[0] in candidates;
    }
  }

  lemma EarliestIsOne(listed: seq<Placement>, resource: ResourceID, p: Placement, q: Placement)
    requires EarliestOn(listed, resource, p) && EarliestOn(listed, resource, q)
    ensures p == q
  {
  }

  lemma EarliestOfRoleIsOne(listed: seq<Placement>, role: Role, p: Placement, q: Placement)
    requires EarliestOfRole(listed, role, p) && EarliestOfRole(listed, role, q)
    ensures p == q
  {
  }

  // A call takes what is asked for, and nothing exactly when there is nothing to take. Resources have names.
  lemma SelectionIsAsked(listed: seq<Placement>, default: Placement, resource: ResourceID, p: Placement)
    requires default.resource != ""
    ensures SelectPlacement(listed, default, resource) == Some(p) <==> Asked(listed, default, resource, p)
    ensures SelectPlacement(listed, default, resource) == None <==>
            && resource != "" && (forall q :: q in listed ==> q.resource != resource)
            && (default.resource == resource ==> exists q :: q in listed && q.id == default.id)
  {
    if resource != "" {
      SelectionOnNamed(listed, default, resource, p);
    } else {
      SelectionAnywhere(listed, default, p);
    }
  }

  lemma SelectionOnNamed(listed: seq<Placement>, default: Placement, resource: ResourceID, p: Placement)
    requires resource != ""
    ensures SelectPlacement(listed, default, resource) == Some(p) <==> AskedOn(listed, default, resource, p)
    ensures SelectPlacement(listed, default, resource) == None <==>
            && (forall q :: q in listed ==> q.resource != resource)
            && (default.resource == resource ==> exists q :: q in listed && q.id == default.id)
  {
    var known := exists q :: q in listed && q.id == default.id;
    FirstOnMeans(listed, resource);
    DefaultBehind(listed, default, resource);
    var found := FirstOn(listed, resource);
    if found.Some? {
      assert found.value in listed;
      if EarliestOn(listed, resource, p) {
        EarliestIsOne(listed, resource, p, found.value);
      }
    }
  }

  lemma {:induction false} DefaultBehind(listed: seq<Placement>, default: Placement, resource: ResourceID)
    ensures FirstOn(listed + [default], resource) ==
            if FirstOn(listed, resource).Some? then FirstOn(listed, resource)
            else if default.resource == resource then Some(default) else None
  {
    if listed == [] {
      assert listed + [default] == [default];
      assert [default][1..] == [];
    } else {
      assert (listed + [default])[1..] == listed[1..] + [default];
      DefaultBehind(listed[1..], default, resource);
    }
  }

  lemma SelectionAnywhere(listed: seq<Placement>, default: Placement, p: Placement)
    requires default.resource != ""
    ensures SelectPlacement(listed, default, "") == Some(p) <==> AskedAnywhere(listed, default, p)
    ensures SelectPlacement(listed, default, "").Some?
  {
    if listed == [] {
      assert [] + [default] == [default];
      assert [default][1..] == [];
    } else {
      var i := FirstByPriorityIsEarliest(listed);
      var best := listed[i];
      forall q | q in listed
        ensures !BetterRole(q.role, best.role)
      {
        assert Priority(best) <= Priority(q);
      }
      assert EarliestOfRole(listed, best.role, best);
      if AskedAnywhere(listed, default, p) {
        assert p.role == best.role;
        EarliestOfRoleIsOne(listed, p.role, p, best);
      }
    }
  }

  // ----- Planning -----

  // The tree at this location has this revision.
  predicate Revises(disk: Disk, env: Env, location: Location, revision: Revision) {
    At(disk, location).Some? && env.hash(At(disk, location).value) == revision
  }

  // A candidate that may justify an eviction: its record says so and, independently, its live bytes say so.
  predicate Qualifies(s: Space, env: Env, f: Faults, source: PlacementID, revision: Revision, candidate: Placement) {
    && candidate.id != source
    && candidate.role == Authoritative
    && candidate.observed == SeenPresent
    && candidate.revision == revision
    && candidate.resource in f.resources
    && var location := Where(env, candidate);
       location.Some? && location.value !in f.statFails && location.value !in f.hashFails
       && Revises(s.disk, env, location.value, revision)
  }

  function FindKeeper(s: Space, env: Env, f: Faults, source: PlacementID, revision: Revision, listed: seq<Placement>): Option<Placement> {
    if listed == [] then None
    else if Qualifies(s, env, f, source, revision, listed[0]) then Some(listed[0])
    else FindKeeper(s, env, f, source, revision, listed[1..])
  }

  function InspectSource(s: Space, env: Env, f: Faults, source: Placement): Result<Revision, Refusal> {
    if source.resource !in f.resources then Err(NoResource)
    else
      var location := Where(env, source);
      if location.None? then Err(OutsideBoundary)
      else if location.value in f.statFails then Err(StatFailed)
      else if At(s.disk, location.value).None? then Err(SourceMissing)
      else if location.value in f.hashFails then Err(HashFailed)
      else Ok(env.hash(At(s.disk, location.value).value))
  }

  function Plan(s: Space, env: Env, f: Faults, uri: URI, listed: seq<Placement>, default: Placement, resource: ResourceID):
    Result<EvictionPlan, Refusal>
  {
    var source := SelectPlacement(listed, default, resource);
    if source.None? then Err(NoPlacement)
    else
      var revision := InspectSource(s, env, f, source.value);
      if revision.Err? then Err(revision.error)
      else
        var keeper := FindKeeper(s, env, f, source.value.id, revision.value, listed);
        if keeper.None? then Err(NoLiveCopy)
        else Ok(EvictionPlan(uri, source.value.id, source.value.path, revision.value, keeper.value.id))
  }

  // ----- Executing -----

  // The tree is moved aside, hashed again and deleted. A wrong hash moves it back; nothing there is success. A managed
  // boundary is never removed, so the path is not empty.
  function RemoveVerified(disk: Disk, env: Env, location: Location, expected: Revision, removal: Removal): (Disk, bool) {
    if At(disk, location).None? then (disk, true)
    else if location.path == [] || !Revises(disk, env, location, expected) then (disk, false)
    else
      match removal
      case Removed => (Put(disk, location, None), true)
      case Refused => (disk, false)
      case Interrupted(tombstone, left, moved) =>
        var aside := Aside(location, tombstone);
        if At(disk, aside).Some? then (disk, false)
        else (Put(Put(disk, location, left), aside, moved), false)
  }

  // What a removal leaves: nothing at all changes unless the expected revision is there below the root; then the place is
  // emptied, or, when the call is interrupted before anything else lies aside, any part of the tree is left here and there.
  lemma RemovalLeaves(disk: Disk, env: Env, location: Location, expected: Revision, removal: Removal)
    ensures var (disk', ok) := RemoveVerified(disk, env, location, expected, removal);
            var starts := location.path != [] && At(disk, location).Some? && env.hash(At(disk, location).value) == expected;
            && (ok <==> At(disk, location) == None || (starts && removal == Removed))
            && (!starts || removal == Refused ==> disk' == disk)
            && (starts && removal == Removed ==> disk' == Put(disk, location, None))
            && (starts && removal.Interrupted? ==>
                  var aside := Location(location.host, location.path[..|location.path| - 1] + [removal.tombstone]);
                  disk' == if At(disk, aside).Some? then disk else Put(Put(disk, location, removal.left), aside, removal.moved))
  {
  }

  // Beside a location, under another name.
  function Aside(location: Location, name: string): (aside: Location)
    requires location.path != []
    ensures aside.path != []
  {
    Location(location.host, location.path[..|location.path| - 1] + [name])
  }

  function RecordEviction(placements: map<PlacementID, Placement>, p: Placement, f: Faults): (map<PlacementID, Placement>, Option<Refusal>) {
    if f.saveFails then (placements, Some(SaveFailed))
    else
      var saved := p.(desired := WantAbsent);
      match f.observation
      case Stored => (placements[p.id := saved.(observed := SeenMissing, revision := "")], None)
      case Superseded => (placements[p.id := saved], Some(ObservationSuperseded))
      case Failed => (placements[p.id := saved], Some(SaveFailed))
  }

  function Evict(s: Space, env: Env, f: Faults, uri: URI, listed: seq<Placement>, default: Placement, resource: ResourceID,
                 expected: Option<EvictionPlan>): (Space, Result<EvictionPlan, Refusal>)
  {
    var plan := Plan(s, env, f, uri, listed, default, resource);
    if plan.Err? then (s, plan)
    else if expected != Some(plan.value) then (s, Err(PlanChanged))
    else if !f.permitsRemoval then (s, Err(RemovalNotPermitted))
    else if plan.value.source !in s.placements then (s, Err(PlacementUnknown))
    else
      var p := s.placements[plan.value.source];
      if p.resource !in f.resources then (s, Err(NoResource))
      else if Where(env, p).None? then (s, Err(OutsideBoundary))
      else
        var (disk, removed) := RemoveVerified(s.disk, env, Where(env, p).value, plan.value.revision, f.removal);
        if !removed then (s.(disk := disk), Err(RemoveFailed))
        else
          var (placements, refusal) := RecordEviction(s.placements, p, f);
          (Space(disk, placements), if refusal.Some? then Err(refusal.value) else plan)
  }

  // ----- What must never be lost -----

  // This placement record points at live bytes of the revision.
  ghost predicate Holds(s: Space, env: Env, uri: URI, revision: Revision, id: PlacementID) {
    && id in s.placements
    && s.placements[id].uri == uri
    && Where(env, s.placements[id]).Some?
    && Revises(s.disk, env, Where(env, s.placements[id]).value, revision)
  }

  // Some record does, of any role or of the authoritative one.
  ghost predicate Live(s: Space, env: Env, uri: URI, revision: Revision, authoritative: bool) {
    exists id :: Holds(s, env, uri, revision, id) && (authoritative ==> s.placements[id].role == Authoritative)
  }

  // No placement lies at the place of another, inside it or around it.
  ghost predicate Disjoint(s: Space, env: Env) {
    && (forall id :: id in s.placements ==> s.placements[id].id == id)
    && (forall id, id' :: id in s.placements && id' in s.placements && id != id' ==> PlacedApart(env, s.placements[id], s.placements[id']))
  }

  ghost predicate PlacedApart(env: Env, p: Placement, q: Placement) {
    Where(env, p).Some? && Where(env, q).Some? ==> Apart(Where(env, p).value, Where(env, q).value)
  }

  // The registry's answer for a logical path, in any order.
  ghost predicate Lists(s: Space, uri: URI, listed: seq<Placement>) {
    forall i :: 0 <= i < |listed| ==>
                  listed[i].uri == uri && listed[i].id in s.placements && s.placements[listed[i].id] == listed[i]
  }

  // The keeper of a plan exists, differs from the source and holds the revision; and it is the first that qualifies.
  lemma {:induction false} KeeperFound(s: Space, env: Env, f: Faults, source: PlacementID, revision: Revision, listed: seq<Placement>)
    ensures var keeper := FindKeeper(s, env, f, source, revision, listed);
            && (keeper.Some? <==> exists i :: 0 <= i < |listed| && Qualifies(s, env, f, source, revision, listed[i]))
            && (keeper.Some? ==> exists i :: && 0 <= i < |listed| && listed[i] == keeper.value
                                             && Qualifies(s, env, f, source, revision, listed[i])
                                             && forall j :: 0 <= j < i ==> !Qualifies(s, env, f, source, revision, listed[j]))
  {
    if listed != [] && !Qualifies(s, env, f, source, revision, listed[0]) {
      var rest := listed[1..];
      KeeperFound(s, env, f, source, revision, rest);
      assert forall j :: 1 <= j < |listed| ==> listed[j] == rest[j - 1];
      var keeper := FindKeeper(s, env, f, source, revision, rest);
      if keeper.Some? {
        var i :| && 0 <= i < |rest| && rest[i] == keeper.value && Qualifies(s, env, f, source, revision, rest[i])
                 && forall j :: 0 <= j < i ==> !Qualifies(s, env, f, source, revision, rest[j]);
        assert listed[i + 1] == rest[i];
      }
    }
  }

  lemma {:induction false} FirstOnIsListed(candidates: seq<Placement>, resource: ResourceID)
    ensures FirstOn(candidates, resource).Some? ==>
              FirstOn(candidates, resource).value in candidates && FirstOn(candidates, resource).value.resource == resource
  {
    if candidates != [] && candidates[0].resource != resource {
      FirstOnIsListed(candidates[1..], resource);
    }
  }

  // An eviction is planned exactly when the chosen source can be read live and some other authoritative record both
  // claims and still holds its bytes.
  lemma PlanSucceedsIff(s: Space, env: Env, f: Faults, uri: URI, listed: seq<Placement>, default: Placement, resource: ResourceID)
    ensures Plan(s, env, f, uri, listed, default, resource).Ok? <==>
            var source := SelectPlacement(listed, default, resource);
            && source.Some?
            && InspectSource(s, env, f, source.value).Ok?
            && exists i :: 0 <= i < |listed| &&
                 Qualifies(s, env, f, source.value.id, InspectSource(s, env, f, source.value).value, listed[i])
  {
    var source := SelectPlacement(listed, default, resource);
    if source.Some? && InspectSource(s, env, f, source.value).Ok? {
      KeeperFound(s, env, f, source.value.id, InspectSource(s, env, f, source.value).value, listed);
    }
  }

  // A placement whose bytes can be looked at: its resource is registered, it stays in its boundary, and the tree there
  // can be inspected and hashed.
  ghost predicate ReadsLive(s: Space, env: Env, f: Faults, p: Placement, revision: Revision) {
    && p.resource in f.resources
    && env.locate(p.resource, p.target, p.path).Some?
    && var location := env.locate(p.resource, p.target, p.path).value;
       && location !in f.statFails && location !in f.hashFails
       && At(s.disk, location).Some? && env.hash(At(s.disk, location).value) == revision
  }

  // A record that justifies an eviction: another one, authoritative, seen present with the revision, and live with it.
  ghost predicate Justifies(s: Space, env: Env, f: Faults, source: Placement, revision: Revision, k: Placement) {
    && k.id != source.id && k.role == Authoritative && k.observed == SeenPresent && k.revision == revision
    && ReadsLive(s, env, f, k, revision)
  }

  ghost predicate EarliestKeeper(s: Space, env: Env, f: Faults, source: Placement, revision: Revision, listed: seq<Placement>, k: Placement) {
    exists i :: && 0 <= i < |listed| && listed[i] == k && Justifies(s, env, f, source, revision, k)
                && forall j :: 0 <= j < i ==> !Justifies(s, env, f, source, revision, listed[j])
  }

  // A plan names the placement asked for, the revision its bytes have now, and the earliest record that justifies its
  // eviction; and whatever placement, revision and record are such, they are the plan.
  lemma PlanIsAsked(s: Space, env: Env, f: Faults, uri: URI, listed: seq<Placement>, default: Placement, resource: ResourceID,
                    p: Placement, revision: Revision, k: Placement)
    requires default.resource != ""
    requires Asked(listed, default, resource, p) && ReadsLive(s, env, f, p, revision) && EarliestKeeper(s, env, f, p, revision, listed, k)
    ensures Plan(s, env, f, uri, listed, default, resource) == Ok(EvictionPlan(uri, p.id, p.path, revision, k.id))
  {
    SelectionIsAsked(listed, default, resource, p);
    KeeperFound(s, env, f, p.id, revision, listed);
    SameJustification(s, env, f, p, revision);
    var i :| && 0 <= i < |listed| && listed[i] == k && Justifies(s, env, f, p, revision, k)
             && forall j :: 0 <= j < i ==> !Justifies(s, env, f, p, revision, listed[j]);
    assert Qualifies(s, env, f, p.id, revision, listed[i]);
  }

  lemma SameJustification(s: Space, env: Env, f: Faults, source: Placement, revision: Revision)
    ensures forall k :: Justifies(s, env, f, source, revision, k) <==> Qualifies(s, env, f, source.id, revision, k)
  {
  }

  lemma PlanMeans(s: Space, env: Env, f: Faults, uri: URI, listed: seq<Placement>, default: Placement, resource: ResourceID)
    returns (p: Placement, k: Placement)
    requires default.resource != ""
    ensures var plan := Plan(s, env, f, uri, listed, default, resource);
            plan.Ok? ==>
              && Asked(listed, default, resource, p) && ReadsLive(s, env, f, p, plan.value.revision)
              && EarliestKeeper(s, env, f, p, plan.value.revision, listed, k)
              && plan.value == EvictionPlan(uri, p.id, p.path, plan.value.revision, k.id)
              && (resource != "" ==> p.resource == resource)
  {
    p, k := default, default;
    var plan := Plan(s, env, f, uri, listed, default, resource);
    if plan.Ok? {
      p := SelectPlacement(listed, default, resource).value;
      k := FindKeeper(s, env, f, p.id, plan.value.revision, listed).value;
      SelectionIsAsked(listed, default, resource, p);
      KeeperFound(s, env, f, p.id, plan.value.revision, listed);
      SameJustification(s, env, f, p, plan.value.revision);
      var i :| && 0 <= i < |listed| && listed[i] == k && Qualifies(s, env, f, p.id, plan.value.revision, listed[i])
               && forall j :: 0 <= j < i ==> !Qualifies(s, env, f, p.id, plan.value.revision, listed[j]);
      assert Justifies(s, env, f, p, plan.value.revision, listed[i]);
    }
  }

  // Why a plan is refused, reason by reason.
  lemma PlanRefusedFor(s: Space, env: Env, f: Faults, uri: URI, listed: seq<Placement>, default: Placement, resource: ResourceID, p: Placement)
    requires default.resource != ""
    ensures Plan(s, env, f, uri, listed, default, resource) == Err(NoPlacement) <==>
            && resource != "" && (forall q :: q in listed ==> q.resource != resource)
            && (default.resource == resource ==> exists q :: q in listed && q.id == default.id)
    ensures Asked(listed, default, resource, p) ==>
              var at := env.locate(p.resource, p.target, p.path);
              Plan(s, env, f, uri, listed, default, resource).Err? ==>
                Plan(s, env, f, uri, listed, default, resource).error ==
                if p.resource !in f.resources then NoResource
                else if at.None? then OutsideBoundary
                else if at.value in f.statFails then StatFailed
                else if At(s.disk, at.value).None? then SourceMissing
                else if at.value in f.hashFails then HashFailed
                else NoLiveCopy
  {
    SelectionIsAsked(listed, default, resource, p);
  }

  lemma SourceIsStored(s: Space, uri: URI, listed: seq<Placement>, default: Placement, resource: ResourceID)
    requires Lists(s, uri, listed)
    ensures var source := SelectPlacement(listed, default, resource);
            source.Some? ==> source.value == default || (source.value.id in s.placements && s.placements[source.value.id] == source.value)
  {
    var known := exists p :: p in listed && p.id == default.id;
    var candidates := if (listed == [] || resource == default.resource) && !known then listed + [default] else listed;
    FirstOnIsListed(candidates, resource);
    assert forall p :: p in candidates ==> p in listed || p == default;
  }

  // When an eviction gets as far as touching bytes, another placement of the same path holds the same revision at
  // another location.
  lemma TouchingNeedsKeeper(s: Space, env: Env, f: Faults, uri: URI, listed: seq<Placement>, default: Placement,
                            resource: ResourceID, expected: Option<EvictionPlan>)
    returns (keeper: PlacementID)
    requires Disjoint(s, env) && Lists(s, uri, listed)
    requires Evict(s, env, f, uri, listed, default, resource, expected).0 != s
    ensures var plan := Plan(s, env, f, uri, listed, default, resource);
            && plan.Ok? && expected == Some(plan.value)
            && plan.value.source in s.placements
            && keeper != plan.value.source
            && Holds(s, env, uri, plan.value.revision, keeper)
            && s.placements[keeper].role == Authoritative
  {
    var plan := Plan(s, env, f, uri, listed, default, resource).value;
    var source := SelectPlacement(listed, default, resource).value;
    KeeperFound(s, env, f, source.id, plan.revision, listed);
    keeper := plan.keeper;
    var k := FindKeeper(s, env, f, source.id, plan.revision, listed).value;
    var i :| 0 <= i < |listed| && listed[i] == k;
  }

  // The registry knows the default placement of a path, if at all, under that path, resource and place: its id is a hash
  // that covers them.
  ghost predicate KnowsDefault(s: Space, uri: URI, default: Placement) {
    default.id in s.placements ==>
      var p := s.placements[default.id];
      p.uri == uri && p.resource == default.resource && p.path == default.path
  }

  // Whatever becomes of a removal, bytes that live apart from it stay as they are, and only bytes of the expected
  // revision are touched at all. Success leaves nothing at the place.
  lemma RemovalIsLocal(disk: Disk, env: Env, location: Location, expected: Revision, removal: Removal, other: Location)
    ensures var (disk', ok) := RemoveVerified(disk, env, location, expected, removal);
            && (At(disk, other).Some? && Apart(location, other) ==> At(disk', other) == At(disk, other))
            && (disk' != disk ==> Revises(disk, env, location, expected))
            && (ok ==> At(disk', location) == None)
  {
    if location.path != [] && Revises(disk, env, location, expected) {
      match removal
      case Removed =>
        NothingThere(disk, location);
        if Apart(location, other) {
          PutElsewhere(disk, location, None, other);
        }
      case Refused =>
      case Interrupted(tombstone, left, moved) =>
        var aside := Aside(location, tombstone);
        if At(disk, other).Some? && Apart(location, other) && At(disk, aside).None? {
          AsideIsApart(disk, location, tombstone, other);
          PutElsewhere(disk, location, left, other);
          PutElsewhere(Put(disk, location, left), aside, moved, other);
        }
    }
  }

  lemma PrefixOfSibling(path: Segments, name: string, m: Segments)
    requires path != [] && Prefix(m, path[..|path| - 1] + [name])
    ensures Prefix(m, path) || m == path[..|path| - 1] + [name]
  {
    var n := |path| - 1;
    if |m| <= n {
      assert (path[..n] + [name])[..|m|] == path[..|m|];
    } else {
      assert m == (path[..n] + [name])[..|m|];
    }
  }

  // Where nothing was before, nothing living apart from the location can be at, inside or around.
  lemma AsideIsApart(disk: Disk, location: Location, name: string, other: Location)
    requires location.path != [] && At(disk, Aside(location, name)).None?
    requires At(disk, other).Some? && Apart(location, other)
    ensures Apart(Aside(location, name), other)
  {
    var aside := Aside(location, name);
    if location.host == other.host {
      if Prefix(aside.path, other.path) {
        AtBelow(disk, aside, other);
      }
      if Prefix(other.path, aside.path) {
        PrefixOfSibling(location.path, name, other.path);
      }
    }
  }

  // Records keep their ids, paths, roles and places.
  ghost predicate SameRecords(m: map<PlacementID, Placement>, m': map<PlacementID, Placement>) {
    && m'.Keys == m.Keys
    && forall id :: id in m ==> m'[id] == m[id].(desired := m'[id].desired, observed := m'[id].observed, revision := m'[id].revision)
  }

  // What a call can do at all: run the planned removal and mark records.
  lemma EvictEffect(s: Space, env: Env, f: Faults, uri: URI, listed: seq<Placement>, default: Placement,
                    resource: ResourceID, expected: Option<EvictionPlan>)
    requires forall id :: id in s.placements ==> s.placements[id].id == id
    ensures var s' := Evict(s, env, f, uri, listed, default, resource, expected).0;
            var plan := Plan(s, env, f, uri, listed, default, resource);
            && SameRecords(s.placements, s'.placements)
            && (s' != s ==>
                  && plan.Ok? && expected == Some(plan.value) && plan.value.source in s.placements
                  && Where(env, s.placements[plan.value.source]).Some?
                  && s'.disk == RemoveVerified(s.disk, env, Where(env, s.placements[plan.value.source]).value, plan.value.revision, f.removal).0)
  {
    var plan := Plan(s, env, f, uri, listed, default, resource);
    if plan.Ok? && plan.value.source in s.placements {
      RecordingKeepsRecords(s.placements, s.placements[plan.value.source], f);
    }
  }

  lemma RecordingKeepsRecords(placements: map<PlacementID, Placement>, p: Placement, f: Faults)
    requires p.id in placements && placements[p.id] == p
    ensures SameRecords(placements, RecordEviction(placements, p, f).0)
  {
  }

  // A placement record that pointed at live bytes still does, unless it is the source of the call.
  lemma HoldsUnlessSource(s: Space, env: Env, f: Faults, uri: URI, listed: seq<Placement>, default: Placement,
                          resource: ResourceID, expected: Option<EvictionPlan>, u: URI, r: Revision, id: PlacementID)
    requires Disjoint(s, env) && Holds(s, env, u, r, id)
    ensures var s' := Evict(s, env, f, uri, listed, default, resource, expected).0;
            var plan := Plan(s, env, f, uri, listed, default, resource);
            || (Holds(s', env, u, r, id) && s'.placements[id].role == s.placements[id].role)
            || (s' != s && plan.Ok? && id == plan.value.source && r == plan.value.revision)
  {
    var plan := Plan(s, env, f, uri, listed, default, resource);
    EvictEffect(s, env, f, uri, listed, default, resource, expected);
    if Evict(s, env, f, uri, listed, default, resource, expected).0 != s {
      var source := s.placements[plan.value.source];
      RemovalIsLocal(s.disk, env, Where(env, source).value, plan.value.revision, f.removal, Where(env, s.placements[id]).value);
      assert id != source.id ==> PlacedApart(env, source, s.placements[id]);
    }
  }

  // After a call that touched bytes or records, the revision it set out to remove still has a live authoritative copy.
  lemma EvictedRevisionSurvives(s: Space, env: Env, f: Faults, uri: URI, listed: seq<Placement>, default: Placement,
                                resource: ResourceID, expected: Option<EvictionPlan>)
    requires Disjoint(s, env) && Lists(s, uri, listed)
    requires Evict(s, env, f, uri, listed, default, resource, expected).0 != s
    ensures Live(Evict(s, env, f, uri, listed, default, resource, expected).0, env, uri,
                 Plan(s, env, f, uri, listed, default, resource).value.revision, true)
  {
    var keeper := TouchingNeedsKeeper(s, env, f, uri, listed, default, resource, expected);
    var revision := Plan(s, env, f, uri, listed, default, resource).value.revision;
    HoldsUnlessSource(s, env, f, uri, listed, default, resource, expected, uri, revision, keeper);
  }

  lemma SourceUnderPath(s: Space, env: Env, f: Faults, uri: URI, listed: seq<Placement>, default: Placement, resource: ResourceID)
    requires Lists(s, uri, listed) && KnowsDefault(s, uri, default)
    requires Plan(s, env, f, uri, listed, default, resource).Ok?
    ensures var source := Plan(s, env, f, uri, listed, default, resource).value.source;
            source in s.placements ==> s.placements[source].uri == uri
  {
    SourceIsStored(s, uri, listed, default, resource);
    var source := SelectPlacement(listed, default, resource).value;
    if source != default {
      var known := exists p :: p in listed && p.id == default.id;
      var candidates := if (listed == [] || resource == default.resource) && !known then listed + [default] else listed;
      FirstOnIsListed(candidates, resource);
      assert source in candidates;
      var i :| 0 <= i < |listed| && listed[i] == source;
    }
  }

  // No call, however it ends, costs any path a revision that has a live copy, or a live authoritative one.
  lemma EvictKeepsLiveCopies(s: Space, env: Env, f: Faults, uri: URI, listed: seq<Placement>, default: Placement,
                             resource: ResourceID, expected: Option<EvictionPlan>, u: URI, r: Revision, authoritative: bool)
    requires Disjoint(s, env) && Lists(s, uri, listed) && KnowsDefault(s, uri, default)
    requires Live(s, env, u, r, authoritative)
    ensures Live(Evict(s, env, f, uri, listed, default, resource, expected).0, env, u, r, authoritative)
  {
    var s' := Evict(s, env, f, uri, listed, default, resource, expected).0;
    var id :| Holds(s, env, u, r, id) && (authoritative ==> s.placements[id].role == Authoritative);
    HoldsUnlessSource(s, env, f, uri, listed, default, resource, expected, u, r, id);
    if !Holds(s', env, u, r, id) {
      EvictedRevisionSurvives(s, env, f, uri, listed, default, resource, expected);
      SourceUnderPath(s, env, f, uri, listed, default, resource);
    }
  }

  // A call that reports success did what it planned and nothing else: nothing is left at the source, bytes apart from
  // it are untouched, its record wants them absent and has seen them missing, and the plan was the one confirmed. A
  // call that reports anything else changed no record, unless nothing is left at the source already.
  lemma SuccessMeansGone(s: Space, env: Env, f: Faults, uri: URI, listed: seq<Placement>, default: Placement,
                         resource: ResourceID, expected: Option<EvictionPlan>)
    requires forall id :: id in s.placements ==> s.placements[id].id == id
    ensures var (s', result) := Evict(s, env, f, uri, listed, default, resource, expected);
            && (result.Ok? ==>
                  && expected == Some(result.value) && result.value.source in s.placements && result.value.source in s'.placements
                  && GoneFrom(s, s', env, result.value.source)
                  && s'.placements == s.placements[result.value.source := s.placements[result.value.source].(
                                                     desired := WantAbsent, observed := SeenMissing, revision := "")])
            && (result.Err? && s'.placements != s.placements ==>
                  var plan := Plan(s, env, f, uri, listed, default, resource);
                  plan.Ok? && plan.value.source in s.placements && GoneFrom(s, s', env, plan.value.source))
  {
    var s' := Evict(s, env, f, uri, listed, default, resource, expected).0;
    var plan := Plan(s, env, f, uri, listed, default, resource);
    if plan.Ok? && plan.value.source in s.placements && s'.placements != s.placements {
      GoneAfterRemoval(s, s', env, plan.value.source, plan.value.revision, f.removal);
    } else if plan.Ok? && plan.value.source in s.placements && Where(env, s.placements[plan.value.source]).Some? {
      RemovalIsLocal(s.disk, env, Where(env, s.placements[plan.value.source]).value, plan.value.revision, f.removal,
                     Where(env, s.placements[plan.value.source]).value);
      GoneAfterRemoval(s, s', env, plan.value.source, plan.value.revision, f.removal);
    }
  }

  ghost predicate GoneFrom(s: Space, s': Space, env: Env, source: PlacementID)
    requires source in s.placements
  {
    var location := Where(env, s.placements[source]);
    && location.Some?
    && At(s'.disk, location.value).None?
    && forall other :: At(s.disk, other).Some? && Apart(location.value, other) ==> At(s'.disk, other) == At(s.disk, other)
  }

  lemma GoneAfterRemoval(s: Space, s': Space, env: Env, source: PlacementID, expected: Revision, removal: Removal)
    requires source in s.placements && Where(env, s.placements[source]).Some?
    ensures (s'.disk, true) == RemoveVerified(s.disk, env, Where(env, s.placements[source]).value, expected, removal) ==>
              GoneFrom(s, s', env, source)
  {
    var location := Where(env, s.placements[source]).value;
    forall other
      ensures At(s.disk, other).Some? && Apart(location, other) ==>
                At(RemoveVerified(s.disk, env, location, expected, removal).0, other) == At(s.disk, other)
    {
      RemovalIsLocal(s.disk, env, location, expected, removal, other);
    }
    RemovalIsLocal(s.disk, env, location, expected, removal, location);
  }

  // With a resource named, what a successful call removed was on that resource, where the plan says, and its record is
  // the one that is marked.
  lemma RemovedWhereAsked(s: Space, env: Env, f: Faults, uri: URI, listed: seq<Placement>, default: Placement,
                          resource: ResourceID, expected: Option<EvictionPlan>) returns (p: Placement)
    requires (forall id :: id in s.placements ==> s.placements[id].id == id)
    requires Lists(s, uri, listed) && KnowsDefault(s, uri, default) && default.resource != ""
    requires Evict(s, env, f, uri, listed, default, resource, expected).1.Ok?
    ensures var (s', result) := Evict(s, env, f, uri, listed, default, resource, expected);
            && Asked(listed, default, resource, p) && result.value.source == p.id && result.value.sourcePath == p.path
            && p.id in s.placements && (resource != "" ==> s.placements[p.id].resource == resource)
            && s.placements[p.id].path == p.path && s.placements[p.id].uri == uri
            && GoneFrom(s, s', env, p.id)
            && s'.placements == s.placements[p.id := s.placements[p.id].(desired := WantAbsent, observed := SeenMissing, revision := "")]
  {
    var k;
    p, k := PlanMeans(s, env, f, uri, listed, default, resource);
    SuccessMeansGone(s, env, f, uri, listed, default, resource, expected);
    if p != default {
      AskedIsListed(listed, default, resource, p);
      var i :| 0 <= i < |listed| && listed[i] == p;
    }
  }

  lemma AskedIsListed(listed: seq<Placement>, default: Placement, resource: ResourceID, p: Placement)
    requires Asked(listed, default, resource, p) && p != default
    ensures p in listed
  {
  }

  // When a call succeeds, and what else it answers: after the plan, whatever stands in the way first.
  lemma EvictAnswers(s: Space, env: Env, f: Faults, uri: URI, listed: seq<Placement>, default: Placement,
                     resource: ResourceID, expected: Option<EvictionPlan>)
    requires Plan(s, env, f, uri, listed, default, resource).Ok?
    ensures var plan := Plan(s, env, f, uri, listed, default, resource).value;
            var (s', result) := Evict(s, env, f, uri, listed, default, resource, expected);
            && (result == Err(PlanChanged) <==> expected == None || expected.value != plan)
            && (expected == Some(plan) ==>
                  && (result == Err(RemovalNotPermitted) <==> !f.permitsRemoval)
                  && (f.permitsRemoval ==> (result == Err(PlacementUnknown) <==> plan.source !in s.placements))
                  && (f.permitsRemoval && plan.source in s.placements ==> AnswersForRecord(s, s', env, f, s.placements[plan.source], plan, result)))
  {
  }

  // The same for the record found: its resource, its boundary, its bytes, and the two writes that mark it.
  ghost predicate AnswersForRecord(s: Space, s': Space, env: Env, f: Faults, p: Placement, plan: EvictionPlan, result: Result<EvictionPlan, Refusal>) {
    var at := env.locate(p.resource, p.target, p.path);
    if p.resource !in f.resources then result == Err(NoResource) && s' == s
    else if at.None? then result == Err(OutsideBoundary) && s' == s
    else if !Removes(s.disk, env, at.value, plan.revision, f.removal) then result == Err(RemoveFailed) && s'.placements == s.placements
    else if f.saveFails then result == Err(SaveFailed) && s'.placements == s.placements
    else
      match f.observation
      case Failed => result == Err(SaveFailed) && s'.placements == s.placements[p.id := p.(desired := WantAbsent)]
      case Superseded => result == Err(ObservationSuperseded) && s'.placements == s.placements[p.id := p.(desired := WantAbsent)]
      case Stored => result == Ok(plan)
  }

  // A removal gets through when nothing is there, or the right revision below a root and nothing goes wrong.
  ghost predicate Removes(disk: Disk, env: Env, location: Location, expected: Revision, removal: Removal) {
    || At(disk, location).None?
    || (location.path != [] && env.hash(At(disk, location).value) == expected && removal == Removed)
  }

  // ----- Whole runs -----

  // Besides evictions: probes that rewrite what the store believes, new placements, records saved again under the same
  // id with another role, and transfers, which never overwrite a destination.
  datatype Action =
    | CallEvict(f: Faults, uri: URI, listed: seq<Placement>, default: Placement, resource: ResourceID, expected: Option<EvictionPlan>)
    | Observe(id: PlacementID, observed: Observed, revision: Revision)
    | Register(placement: Placement)
    | SaveAgain(id: PlacementID, role: Role, desired: Desired)
    | Copy(location: Location, content: Tree)

  // A run so far, with every (path, revision) whose bytes an eviction has touched.
  datatype History = History(space: Space, touched: set<(URI, Revision)>)

  // New placements and new bytes keep clear of the placements there are, inside and around; bytes may fill a placement
  // that is empty.
  ghost predicate Legal(s: Space, env: Env, a: Action) {
    match a
    case CallEvict(_, uri, listed, default, _, _) => Lists(s, uri, listed) && KnowsDefault(s, uri, default)
    case Observe(id, _, _) => id in s.placements
    case SaveAgain(id, _, _) => id in s.placements
    case Register(p) => p.id !in s.placements && forall id :: id in s.placements ==> PlacedApart(env, p, s.placements[id])
    case Copy(location, _) =>
      && location.path != [] && At(s.disk, location).None?
      && forall id :: id in s.placements && Where(env, s.placements[id]).Some? ==>
                        Where(env, s.placements[id]).value == location || Apart(location, Where(env, s.placements[id]).value)
  }

  // An authoritative record saved again with a lesser role.
  ghost predicate Demotes(s: Space, a: Action) {
    a.SaveAgain? && a.role != Authoritative && a.id in s.placements && s.placements[a.id].role == Authoritative
  }

  function Act(h: History, env: Env, a: Action): History {
    var s := h.space;
    match a
    case CallEvict(f, uri, listed, default, resource, expected) =>
      var s' := Evict(s, env, f, uri, listed, default, resource, expected).0;
      var plan := Plan(s, env, f, uri, listed, default, resource);
      History(s', h.touched + (if s' != s && plan.Ok? then {(uri, plan.value.revision)} else {}))
    case Observe(id, observed, revision) =>
      if id in s.placements
      then h.(space := s.(placements := s.placements[id := s.placements[id].(observed := observed, revision := revision)]))
      else h
    case Register(p) => h.(space := s.(placements := s.placements[p.id := p]))
    case SaveAgain(id, role, desired) =>
      if id in s.placements
      then h.(space := s.(placements := s.placements[id := s.placements[id].(role := role, desired := desired)]))
      else h
    case Copy(location, content) => if location.path == [] then h else h.(space := s.(disk := Put(s.disk, location, Some(content))))
  }

  function Acts(h: History, env: Env, actions: seq<Action>): History
    decreases |actions|
  {
    if actions == [] then h else Acts(Act(h, env, actions[0]), env, actions[1..])
  }

  // A run of legal actions, and in the strict form one that demotes no authoritative record.
  ghost predicate AllLegal(h: History, env: Env, actions: seq<Action>, strict: bool)
    decreases |actions|
  {
    actions == [] || (&& Legal(h.space, env, actions[0]) && (strict ==> !Demotes(h.space, actions[0]))
                      && AllLegal(Act(h, env, actions[0]), env, actions[1..], strict))
  }

  ghost predicate TouchedSurvive(h: History, env: Env, authoritative: bool) {
    forall u, r :: (u, r) in h.touched ==> Live(h.space, env, u, r, authoritative)
  }

  // Records keep their ids and their places.
  ghost predicate SamePlaces(m: map<PlacementID, Placement>, m': map<PlacementID, Placement>, env: Env) {
    m'.Keys == m.Keys && forall id :: id in m ==> m'[id].id == m[id].id && Where(env, m'[id]) == Where(env, m[id])
  }

  lemma SamePlacesDisjoint(s: Space, s': Space, env: Env)
    requires Disjoint(s, env) && SamePlaces(s.placements, s'.placements, env)
    ensures Disjoint(s', env)
  {
  }

  lemma ActKeepsDisjoint(h: History, env: Env, a: Action)
    requires Disjoint(h.space, env) && Legal(h.space, env, a)
    ensures Disjoint(Act(h, env, a).space, env)
  {
    var s, s' := h.space, Act(h, env, a).space;
    match a
    case CallEvict(f, uri, listed, default, resource, expected) =>
      EvictEffect(s, env, f, uri, listed, default, resource, expected);
      SamePlacesDisjoint(s, s', env);
    case Observe(_, _, _) => SamePlacesDisjoint(s, s', env);
    case SaveAgain(_, _, _) => SamePlacesDisjoint(s, s', env);
    case Register(_) =>
    case Copy(_, _) =>
  }

  lemma ActKeepsLiveCopies(h: History, env: Env, a: Action, u: URI, r: Revision, authoritative: bool)
    requires Disjoint(h.space, env) && Legal(h.space, env, a) && (authoritative ==> !Demotes(h.space, a))
    requires Live(h.space, env, u, r, authoritative)
    ensures Live(Act(h, env, a).space, env, u, r, authoritative)
  {
    var s, s' := h.space, Act(h, env, a).space;
    if a.CallEvict? {
      EvictKeepsLiveCopies(s, env, a.f, a.uri, a.listed, a.default, a.resource, a.expected, u, r, authoritative);
    } else {
      var id :| Holds(s, env, u, r, id) && (authoritative ==> s.placements[id].role == Authoritative);
      if a.Copy? {
        PutElsewhere(s.disk, a.location, Some(a.content), Where(env, s.placements[id]).value);
      }
      assert Holds(s', env, u, r, id);
      assert authoritative ==> s'.placements[id].role == Authoritative;
    }
  }

  // The safety of managed eviction over whole runs: every revision that was ever evicted from a path keeps a live copy
  // there, and a live authoritative one as long as no authoritative record is demoted.
  lemma {:induction false} NothingEvictedIsLost(h: History, env: Env, actions: seq<Action>, authoritative: bool)
    requires Disjoint(h.space, env) && TouchedSurvive(h, env, authoritative) && AllLegal(h, env, actions, authoritative)
    ensures Disjoint(Acts(h, env, actions).space, env)
    ensures TouchedSurvive(Acts(h, env, actions), env, authoritative)
    decreases |actions|
  {
    if actions != [] {
      var a, h' := actions[0], Act(h, env, actions[0]);
      ActKeepsDisjoint(h, env, a);
      forall u, r | (u, r) in h'.touched
        ensures Live(h'.space, env, u, r, authoritative)
      {
        if (u, r) in h.touched {
          ActKeepsLiveCopies(h, env, a, u, r, authoritative);
        } else {
          EvictedRevisionSurvives(h.space, env, a.f, a.uri, a.listed, a.default, a.resource, a.expected);
          var id :| Holds(h'.space, env, u, r, id);
        }
      }
      NothingEvictedIsLost(h', env, actions[1..], authoritative);
    }
  }

  // A live copy outlives any run, an authoritative one any run without demotions.
  lemma {:induction false} LiveCopiesStay(h: History, env: Env, actions: seq<Action>, u: URI, r: Revision, authoritative: bool)
    requires Disjoint(h.space, env) && AllLegal(h, env, actions, authoritative) && Live(h.space, env, u, r, authoritative)
    ensures Live(Acts(h, env, actions).space, env, u, r, authoritative)
    decreases |actions|
  {
    if actions != [] {
      ActKeepsDisjoint(h, env, actions[0]);
      ActKeepsLiveCopies(h, env, actions[0], u, r, authoritative);
      LiveCopiesStay(Act(h, env, actions[0]), env, actions[1..], u, r, authoritative);
    }
  }

  // So whatever a call evicts is still there after any run behind it, whether the call succeeded or failed half way.
  lemma EvictedStaysLive(h: History, env: Env, call: Action, later: seq<Action>, authoritative: bool)
    requires call.CallEvict? && Disjoint(h.space, env) && Legal(h.space, env, call) && AllLegal(Act(h, env, call), env, later, authoritative)
    requires Evict(h.space, env, call.f, call.uri, call.listed, call.default, call.resource, call.expected).0 != h.space
    ensures var plan := Plan(h.space, env, call.f, call.uri, call.listed, call.default, call.resource);
            && plan.Ok?
            && (call.uri, plan.value.revision) in Act(h, env, call).touched
            && Live(Acts(h, env, [call] + later).space, env, call.uri, plan.value.revision, authoritative)
  {
    var h' := Act(h, env, call);
    EvictedRevisionSurvives(h.space, env, call.f, call.uri, call.listed, call.default, call.resource, call.expected);
    var r := Plan(h.space, env, call.f, call.uri, call.listed, call.default, call.resource).value.revision;
    ActKeepsDisjoint(h, env, call);
    assert Live(h'.space, env, call.uri, r, authoritative);
    LiveCopiesStay(h', env, later, call.uri, r, authoritative);
    assert ([call] + later)[1..] == later;
  }

  // A demotion costs a revision its authoritative copy exactly when no other authoritative record holds it; the bytes
  // stay.
  lemma DemotionKeepsAuthoritativeIff(h: History, env: Env, a: Action, u: URI, r: Revision)
    requires Demotes(h.space, a)
    ensures Live(Act(h, env, a).space, env, u, r, true) <==>
            exists id :: id != a.id && Holds(h.space, env, u, r, id) && h.space.placements[id].role == Authoritative
    ensures Live(Act(h, env, a).space, env, u, r, false) <==> Live(h.space, env, u, r, false)
  {
    var s, s' := h.space, Act(h, env, a).space;
    assert forall id :: Holds(s', env, u, r, id) <==> Holds(s, env, u, r, id);
    assert forall id :: id in s.placements && id != a.id ==> s'.placements[id] == s.placements[id];
  }

  // ----- What the safety rests on -----

  // Different directories have different revisions: the manifest of a directory names every entry and its digest.
  ghost predicate SeparatesDirectories(hash: Tree -> Revision) {
    forall a: Tree, b: Tree :: a.Dir? && b.Dir? && hash(a) == hash(b) ==> a == b
  }

  // Without assuming that placements lie apart: of the records that hold bytes, a successful removal costs exactly
  // those that lie at the source, inside it or around it, on the same host.
  lemma CopySurvivesIffApart(s: Space, env: Env, f: Faults, uri: URI, listed: seq<Placement>, default: Placement,
                             resource: ResourceID, expected: Option<EvictionPlan>, u: URI, r: Revision, id: PlacementID)
    requires SeparatesDirectories(env.hash) && (forall id :: id in s.placements ==> s.placements[id].id == id)
    requires Holds(s, env, u, r, id) && f.removal == Removed
    requires Evict(s, env, f, uri, listed, default, resource, expected).0.disk != s.disk
    ensures var s' := Evict(s, env, f, uri, listed, default, resource, expected).0;
            var plan := Plan(s, env, f, uri, listed, default, resource);
            && plan.Ok? && plan.value.source in s.placements && Where(env, s.placements[plan.value.source]).Some?
            && (Holds(s', env, u, r, id) <==>
                Apart(Where(env, s.placements[plan.value.source]).value, Where(env, s.placements[id]).value))
  {
    var plan := Plan(s, env, f, uri, listed, default, resource).value;
    var from, other := Where(env, s.placements[plan.source]).value, Where(env, s.placements[id]).value;
    var s' := Evict(s, env, f, uri, listed, default, resource, expected).0;
    assert s'.disk == Put(s.disk, from, None);
    if Apart(from, other) {
      PutElsewhere(s.disk, from, None, other);
    } else {
      RemovalShows(s.disk, from, other);
      if !Prefix(from.path, other.path) {
        AroundIsDirectory(s.disk, from, other);
      }
    }
  }

  // The keeper among them: it outlives the source exactly when neither lies inside the other.
  lemma KeeperSurvivesIffApart(s: Space, env: Env, f: Faults, uri: URI, listed: seq<Placement>, default: Placement,
                               resource: ResourceID, expected: Option<EvictionPlan>)
    requires SeparatesDirectories(env.hash) && (forall id :: id in s.placements ==> s.placements[id].id == id)
    requires Lists(s, uri, listed) && f.removal == Removed
    requires Evict(s, env, f, uri, listed, default, resource, expected).0.disk != s.disk
    ensures var s' := Evict(s, env, f, uri, listed, default, resource, expected).0;
            var plan := Plan(s, env, f, uri, listed, default, resource);
            && plan.Ok? && plan.value.source in s.placements && Where(env, s.placements[plan.value.source]).Some?
            && Holds(s, env, uri, plan.value.revision, plan.value.keeper)
            && (Holds(s', env, uri, plan.value.revision, plan.value.keeper) <==>
                Apart(Where(env, s.placements[plan.value.source]).value, Where(env, s.placements[plan.value.keeper]).value))
  {
    var plan := Plan(s, env, f, uri, listed, default, resource).value;
    KeeperFound(s, env, f, plan.source, plan.revision, listed);
    CopySurvivesIffApart(s, env, f, uri, listed, default, resource, expected, uri, plan.revision, plan.keeper);
  }

  function Record(id: PlacementID, uri: URI, resource: ResourceID, path: string, role: Role, revision: Revision): Placement {
    Placement(id, uri, resource, "", path, role, WantPresent, SeenPresent, revision)
  }

  const NO_FAULTS := Faults({"nas", "gpu"}, {}, {}, true, Removed, false, Stored)

  // Each resource is a host, and a path is one name there, except that "raw" on the first host lies inside "data".
  function ByName(resource: ResourceID, target: string, path: string): Option<Location> {
    Some(Location(resource, if resource == "nas" && path == "raw" then ["data", "raw"] else [path]))
  }

  lemma SecondOn(first: Placement, second: Placement, resource: ResourceID)
    requires first.resource != resource && second.resource == resource
    ensures FirstOn([first, second], resource) == Some(second)
  {
    assert [first, second][1..] == [second];
  }

  // An earlier failure left the record of "one" claiming bytes that are gone. The search refuses to evict "two"
  // although the record says everything that is asked of a record.
  lemma StaleRecordIsNoKeeper(hash: Tree -> Revision)
    ensures var env, r := Env(ByName, hash), hash(File("data"));
            var one, two := Record("one", "aexp://w/data", "nas", "one", Authoritative, r), Record("two", "aexp://w/data", "gpu", "two", Cache, r);
            var s := Space(map["gpu" := Dir(map["two" := File("data")])], map["one" := one, "two" := two]);
            && Disjoint(s, env) && Lists(s, two.uri, [one, two])
            && Plan(s, env, NO_FAULTS, two.uri, [one, two], one, "gpu") == Err(NoLiveCopy)
  {
    var env, r := Env(ByName, hash), hash(File("data"));
    var one, two := Record("one", "aexp://w/data", "nas", "one", Authoritative, r), Record("two", "aexp://w/data", "gpu", "two", Cache, r);
    var s := Space(map["gpu" := Dir(map["two" := File("data")])], map["one" := one, "two" := two]);
    SecondOn(one, two, "gpu");
    assert ["one"][1..] == [] && ["two"][1..] == [];
    assert At(s.disk, Location("gpu", ["two"])) == Some(File("data"));
    assert At(s.disk, Location("nas", ["one"])) == None;
    assert one in [one, two];
    assert [one, two][0] == one && [one, two][1] == two;
    KeeperFound(s, env, NO_FAULTS, "two", r, [one, two]);
  }

  // Two placements at one place break the assumption that placements lie apart, and with it the safety: the keeper and
  // the source are then the same bytes.
  function AllAtOnePlace(resource: ResourceID, target: string, path: string): Option<Location> {
    Some(Location("nas", ["one"]))
  }

  lemma AliasedPlacementsLoseTheLastCopy(hash: Tree -> Revision)
    ensures var env, r := Env(AllAtOnePlace, hash), hash(File("data"));
            var one, two := Record("one", "aexp://w/data", "nas", "one", Authoritative, r), Record("two", "aexp://w/data", "gpu", "two", Cache, r);
            var s := Space(map["nas" := Dir(map["one" := File("data")])], map["one" := one, "two" := two]);
            var plan := EvictionPlan(two.uri, "two", "two", r, "one");
            var (s', result) := Evict(s, env, NO_FAULTS, two.uri, [one, two], one, "gpu", Some(plan));
            && Live(s, env, two.uri, r, true)
            && result == Ok(plan) && s'.disk == map["nas" := Dir(map[])]
  {
    var env, r := Env(AllAtOnePlace, hash), hash(File("data"));
    var one, two := Record("one", "aexp://w/data", "nas", "one", Authoritative, r), Record("two", "aexp://w/data", "gpu", "two", Cache, r);
    var s := Space(map["nas" := Dir(map["one" := File("data")])], map["one" := one, "two" := two]);
    var place := Location("nas", ["one"]);
    SecondOn(one, two, "gpu");
    assert one in [one, two];
    assert ["one"][1..] == [];
    assert At(s.disk, place) == Some(File("data"));
    assert [one, two][0] == one;
    assert Qualifies(s, env, NO_FAULTS, "two", r, one);
    assert Holds(s, env, two.uri, r, "one");
    assert Put(s.disk, place, None) == map["nas" := Dir(map[])];
  }

  // So do placements inside one another. The registry knows a data set on the first host, a part of it under its own
  // path on the second, and a cached copy of that part inside the data set. Evicting the copy succeeds, and the data
  // set, which was the authoritative and only copy of its revision, is another directory now.
  lemma NestedPlacementsLoseACopy(hash: Tree -> Revision)
    requires SeparatesDirectories(hash)
    ensures var env, raw := Env(ByName, hash), File("raw");
            var data := Dir(map["raw" := raw]);
            var all := Record("all", "aexp://w/data", "nas", "data", Authoritative, hash(data));
            var main := Record("main", "aexp://w/data/raw", "gpu", "raw", Authoritative, hash(raw));
            var copy := Record("copy", "aexp://w/data/raw", "nas", "raw", Cache, hash(raw));
            var s := Space(map["nas" := Dir(map["data" := data]), "gpu" := Dir(map["raw" := raw])], map["all" := all, "main" := main, "copy" := copy]);
            var plan := EvictionPlan(copy.uri, "copy", "raw", hash(raw), "main");
            var (s', result) := Evict(s, env, NO_FAULTS, copy.uri, [main, copy], main, "nas", Some(plan));
            && Live(s, env, all.uri, hash(data), true)
            && result == Ok(plan)
            && !Live(s', env, all.uri, hash(data), false)
  {
    var env, raw := Env(ByName, hash), File("raw");
    var data := Dir(map["raw" := raw]);
    var all := Record("all", "aexp://w/data", "nas", "data", Authoritative, hash(data));
    var main := Record("main", "aexp://w/data/raw", "gpu", "raw", Authoritative, hash(raw));
    var copy := Record("copy", "aexp://w/data/raw", "nas", "raw", Cache, hash(raw));
    var s := Space(map["nas" := Dir(map["data" := data]), "gpu" := Dir(map["raw" := raw])], map["all" := all, "main" := main, "copy" := copy]);
    var plan := EvictionPlan(copy.uri, "copy", "raw", hash(raw), "main");
    var inside, around, apart := Location("nas", ["data", "raw"]), Location("nas", ["data"]), Location("gpu", ["raw"]);
    NestedTrees(raw, data);
    SecondOn(main, copy, "nas");
    assert main in [main, copy] && [main, copy][0] == main;
    assert Qualifies(s, env, NO_FAULTS, "copy", hash(raw), main);
    assert Holds(s, env, all.uri, hash(data), "all");
    NothingThere(s.disk, inside);
    assert Prefix(around.path, inside.path);
    CopySurvivesIffApart(s, env, NO_FAULTS, copy.uri, [main, copy], main, "nas", Some(plan), all.uri, hash(data), "all");
  }

  lemma NestedTrees(raw: Tree, data: Tree)
    requires data == Dir(map["raw" := raw])
    ensures var disk := map["nas" := Dir(map["data" := data]), "gpu" := Dir(map["raw" := raw])];
            && At(disk, Location("nas", ["data"])) == Some(data)
            && At(disk, Location("nas", ["data", "raw"])) == Some(raw)
            && At(disk, Location("gpu", ["raw"])) == Some(raw)
  {
    assert ["data", "raw"][1..] == ["raw"] && ["data"][1..] == [] && ["raw"][1..] == [];
  }

  // ----- The service -----

  class FileSpaceService {
    var disk: Disk
    var placements: map<PlacementID, Placement>
    const env: Env

    constructor (disk: Disk, placements: map<PlacementID, Placement>, env: Env)
      ensures S() == Space(disk, placements) && this.env == env
    {
      this.disk, this.placements, this.env := disk, placements, env;
    }

    ghost function S(): Space
      reads this
    {
      Space(disk, placements)
    }

    method PlanEviction(f: Faults, uri: URI, listed: seq<Placement>, default: Placement, resource: ResourceID)
      returns (plan: Result<EvictionPlan, Refusal>)
      ensures plan == Plan(S(), env, f, uri, listed, default, resource)
    {
      var selected := SelectPlacement(listed, default, resource);
      if selected.None? {
        return Err(NoPlacement);
      }
      var source := selected.value;
      var inspected := InspectSource(Space(disk, placements), env, f, source);
      if inspected.Err? {
        return Err(inspected.error);
      }
      var revision := inspected.value;
      var alternate: Option<Placement> := None;
      assert listed[0..] == listed;
      for i := 0 to |listed|
        invariant alternate.None?
        invariant FindKeeper(S(), env, f, source.id, revision, listed) == FindKeeper(S(), env, f, source.id, revision, listed[i..])
      {
        if Qualifies(Space(disk, placements), env, f, source.id, revision, listed[i]) {
          alternate := Some(listed[i]);
          break;
        }
        assert listed[i..][1..] == listed[i + 1..];
      }
      if alternate.None? {
        return Err(NoLiveCopy);
      }
      return Ok(EvictionPlan(uri, source.id, source.path, revision, alternate.value.id));
    }

    method EvictPlacement(f: Faults, uri: URI, listed: seq<Placement>, default: Placement, resource: ResourceID,
                          expected: Option<EvictionPlan>)
      returns (result: Result<EvictionPlan, Refusal>)
      modifies this
      ensures (S(), result) == Evict(old(S()), env, f, uri, listed, default, resource, expected)
    {
      var plan := PlanEviction(f, uri, listed, default, resource);
      if plan.Err? {
        return plan;
      }
      if expected.None? || expected.value != plan.value {
        return Err(PlanChanged);
      }
      if !f.permitsRemoval {
        return Err(RemovalNotPermitted);
      }
      if plan.value.source !in placements {
        return Err(PlacementUnknown);
      }
      var placement := placements[plan.value.source];
      if placement.resource !in f.resources {
        return Err(NoResource);
      }
      var location := Where(env, placement);
      if location.None? {
        return Err(OutsideBoundary);
      }
      var (disk', removed) := RemoveVerified(disk, env, location.value, plan.value.revision, f.removal);
      disk := disk';
      if !removed {
        return Err(RemoveFailed);
      }
      if f.saveFails {
        return Err(SaveFailed);
      }
      placement := placement.(desired := WantAbsent);
      placements := placements[placement.id := placement];
      match f.observation {
        case Failed => return Err(SaveFailed);
        case Superseded => return Err(ObservationSuperseded);
        case Stored =>
          placement := placement.(observed := SeenMissing, revision := "");
          placements := placements[placement.id := placement];
          assert placements == old(placements)[placement.id := placement];
          return plan;
      }
    }
  }
}
