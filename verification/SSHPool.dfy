/**
 The SSH connection pool of internal/executor/ssh_pool.go: a map of clients behind a read-write mutex, filled by
 double-checked locking and emptied by host, by key or as a whole.

 The pool is a step model: any number of threads, each at its own place in an operation, and every lock, read, dial,
 insertion, close and deletion a step of its own.  A session request is a Get, and on a stale client a removal by
 host and a second Get, so its runs are among those of threads that issue these operations in any order.
 */
module SSHPool {
  import opened Outcomes
  import opened SSHKeys

  type Thread = nat
  type Client = nat

  // ----- State -----

  // Which entries a removal closes.
  datatype Removal = ByHost(host: string, port: int) | ByKey(key: Key) | Everything

  predicate Matches(r: Removal, key: Key) {
    match r
    case ByHost(host, port) => Contains(key, Marker(host, port))
    case ByKey(k) => key == k
    case Everything => true
  }

  // What the mutex protects, and the history of it: successful dials and removals per key.
  datatype Shared = Shared(conns: map<Key, Client>, open: set<Client>, created: set<Client>, dials: multiset<Key>, removals: multiset<Key>)

  // Where a thread is.  From Checking on, except for the two reading places, it holds the write lock.
  datatype Place =
    | Idle
    | WantRead(key: Key)
    | Reading(key: Key)
    | HasRead(key: Key, found: Option<Client>)
    | WantWrite(key: Key)
    | WantRemove(removal: Removal)
    | Checking(key: Key)
    | Dialing(key: Key)
    | Dialed(key: Key, client: Client)
    | GotClient(key: Key, result: Option<Client>)
    | Removing(removal: Removal, todo: set<Key>)
    | Closed(removal: Removal, key: Key, todo: set<Key>)
    | Removed(removal: Removal)

  predicate HoldsRead(p: Place) {
    p.Reading? || p.HasRead?
  }

  predicate HoldsWrite(p: Place) {
    p.Checking? || p.Dialing? || p.Dialed? || p.GotClient? || p.Removing? || p.Closed? || p.Removed?
  }

  datatype Pool = Pool(shared: Shared, readers: set<Thread>, writer: Option<Thread>, places: map<Thread, Place>)

  function PlaceOf(p: Pool, t: Thread): Place {
    if t in p.places then p.places[t] else Idle
  }

  // The state of the thread that holds the write lock.
  function Hand(p: Pool): Place {
    if p.writer.Some? then PlaceOf(p, p.writer.value) else Idle
  }

  function Lookup(conns: map<Key, Client>, key: Key): Option<Client> {
    if key in conns then Some(conns[key]) else None
  }

  // ----- Steps -----

  datatype Choice = Choice(dialed: Option<Client>, key: Key)

  datatype Event = StartGet(t: Thread, key: Key) | StartRemove(t: Thread, removal: Removal) | Advance(t: Thread, choice: Choice)

  // A step of the thread that holds the write lock, other than releasing it.
  predicate CanWork(s: Shared, p: Place, c: Choice) {
    match p
    case Checking(_) => true
    case Dialing(_) => c.dialed.Some? ==> c.dialed.value !in s.created
    case Dialed(_, _) => true
    case Removing(_, todo) => todo == {} || c.key in todo
    case Closed(_, key, _) => key in s.conns
    case _ => false
  }

  function Work(s: Shared, p: Place, c: Choice): (Shared, Place)
    requires CanWork(s, p, c)
  {
    match p
    case Checking(key) => (s, if key in s.conns then GotClient(key, Some(s.conns[key])) else Dialing(key))
    case Dialing(key) =>
      if c.dialed.None? then (s, GotClient(key, None))
      else
        (s.(open := s.open + {c.dialed.value}, created := s.created + {c.dialed.value}, dials := s.dials + multiset{key}),
         Dialed(key, c.dialed.value))
    case Dialed(key, client) => (s.(conns := s.conns[key := client]), GotClient(key, Some(client)))
    case Removing(removal, todo) =>
      if todo == {} then (s, Removed(removal))
      else (s.(open := s.open - (if c.key in s.conns then {s.conns[c.key]} else {})), Closed(removal, c.key, todo))
    case Closed(removal, key, todo) =>
      (s.(conns := s.conns - {key}, removals := s.removals + multiset{key}), Removing(removal, todo - {key}))
  }

  function MatchingKeys(conns: map<Key, Client>, r: Removal): set<Key> {
    set key | key in conns && Matches(r, key)
  }

  function Move(p: Pool, t: Thread, place: Place): Pool {
    p.(places := p.places[t := place])
  }

  function Step(p: Pool, e: Event): Pool {
    match e
    case StartGet(t, key) => if PlaceOf(p, t).Idle? then Move(p, t, WantRead(key)) else p
    case StartRemove(t, removal) => if PlaceOf(p, t).Idle? then Move(p, t, WantRemove(removal)) else p
    case Advance(t, c) =>
      var at := PlaceOf(p, t);
      match at
      case Idle => p
      case WantRead(key) => if p.writer.None? then Move(p, t, Reading(key)).(readers := p.readers + {t}) else p
      case Reading(key) => Move(p, t, HasRead(key, Lookup(p.shared.conns, key)))
      case HasRead(key, found) =>
        Move(p, t, if found.Some? then Idle else WantWrite(key)).(readers := p.readers - {t})
      case WantWrite(key) =>
        if p.writer.None? && p.readers == {} then Move(p, t, Checking(key)).(writer := Some(t)) else p
      case WantRemove(removal) =>
        if p.writer.None? && p.readers == {}
        then Move(p, t, Removing(removal, MatchingKeys(p.shared.conns, removal))).(writer := Some(t)) else p
      case GotClient(_, _) => Move(p, t, Idle).(writer := None)
      case Removed(_) => Move(p, t, Idle).(writer := None)
      case _ =>
        if CanWork(p.shared, at, c) then
          var (shared, place) := Work(p.shared, at, c);
          Move(p, t, place).(shared := shared)
        else p
  }

  function Run(p: Pool, events: seq<Event>): Pool
    decreases |events|
  {
    if events == [] then p else Run(Step(p, events[0]), events[1..])
  }

  const EMPTY := Pool(Shared(map[], {}, {}, multiset{}, multiset{}), {}, None, map[])

  // ----- Invariants -----

  ghost predicate Injective(conns: map<Key, Client>) {
    forall k, k' :: k in conns && k' in conns && k != k' ==> conns[k] != conns[k']
  }

  // The clients that are open: those in the map, plus one dialled but not yet entered, less one closed but not yet
  // deleted.
  ghost predicate OpenIs(s: Shared, hand: Place) {
    match hand
    case Dialed(key, client) => client !in s.conns.Values && s.open == s.conns.Values + {client}
    case Closed(_, key, _) => key in s.conns && s.open == s.conns.Values - {s.conns[key]}
    case _ => s.open == s.conns.Values
  }

  ghost predicate DialsMatch(s: Shared, hand: Place) {
    forall key :: s.dials[key] ==
                  s.removals[key] + (if key in s.conns then 1 else 0) + (if hand.Dialed? && hand.key == key then 1 else 0)
  }

  ghost predicate HandInv(s: Shared, hand: Place) {
    match hand
    case Dialing(key) => key !in s.conns
    case Dialed(key, client) => key !in s.conns && client in s.created
    case GotClient(key, result) => result == if key in s.conns then Some(s.conns[key]) else None
    case Removing(removal, todo) => todo == MatchingKeys(s.conns, removal)
    case Closed(removal, key, todo) => key in todo && todo == MatchingKeys(s.conns, removal)
    case Removed(removal) => MatchingKeys(s.conns, removal) == {}
    case _ => true
  }

  ghost predicate SharedInv(s: Shared, hand: Place) {
    && Injective(s.conns)
    && s.conns.Values <= s.created
    && OpenIs(s, hand)
    && DialsMatch(s, hand)
    && HandInv(s, hand)
  }

  ghost predicate LockInv(p: Pool) {
    && (forall t: Thread :: HoldsWrite(PlaceOf(p, t)) <==> p.writer == Some(t))
    && (forall t: Thread :: HoldsRead(PlaceOf(p, t)) <==> t in p.readers)
    && (p.writer.Some? ==> p.readers == {})
  }

  // What a reader holds is current for as long as it holds the read lock.
  ghost predicate ReadersInv(p: Pool) {
    forall t: Thread ::
      var at := PlaceOf(p, t);
      at.HasRead? ==> at.found == if at.key in p.shared.conns then Some(p.shared.conns[at.key]) else None
  }

  ghost predicate Inv(p: Pool) {
    SharedInv(p.shared, Hand(p)) && LockInv(p) && ReadersInv(p)
  }

  lemma DialedEnters(s: Shared, key: Key, client: Client)
    requires SharedInv(s, Dialed(key, client))
    ensures SharedInv(s.(conns := s.conns[key := client]), GotClient(key, Some(client)))
  {
    var conns := s.conns[key := client];
    assert conns[key] == client;
    assert conns.Values == s.conns.Values + {client} by {
      forall c | c in s.conns.Values
        ensures c in conns.Values
      {
        var k :| k in s.conns && s.conns[k] == c;
        assert conns[k] == c;
      }
    }
  }

  lemma ClosedLeaves(s: Shared, removal: Removal, key: Key, todo: set<Key>)
    requires SharedInv(s, Closed(removal, key, todo))
    ensures SharedInv(s.(conns := s.conns - {key}, removals := s.removals + multiset{key}), Removing(removal, todo - {key}))
  {
    var conns := s.conns - {key};
    assert conns.Values == s.conns.Values - {s.conns[key]} by {
      forall c | c in s.conns.Values && c != s.conns[key]
        ensures c in conns.Values
      {
        var k :| k in s.conns && s.conns[k] == c;
        assert conns[k] == c;
      }
    }
    assert MatchingKeys(conns, removal) == todo - {key};
  }

  lemma WorkKeepsShared(s: Shared, hand: Place, c: Choice)
    requires SharedInv(s, hand) && CanWork(s, hand, c)
    ensures var (s', hand') := Work(s, hand, c); SharedInv(s', hand') && HoldsWrite(hand')
  {
    match hand
    case Dialed(key, client) => DialedEnters(s, key, client);
    case Closed(removal, key, todo) => ClosedLeaves(s, removal, key, todo);
    case Checking(_) =>
    case Dialing(_) =>
    case Removing(_, _) =>
  }

  lemma MoveKeepsLocks(p: Pool, t: Thread, place: Place)
    requires LockInv(p)
    requires HoldsWrite(place) == HoldsWrite(PlaceOf(p, t)) && HoldsRead(place) == HoldsRead(PlaceOf(p, t))
    ensures LockInv(Move(p, t, place))
  {
    var p' := Move(p, t, place);
    assert forall u: Thread :: u != t ==> PlaceOf(p', u) == PlaceOf(p, u);
  }

  lemma LockStep(p: Pool, p': Pool, t: Thread)
    requires LockInv(p)
    requires forall u: Thread :: u != t ==> PlaceOf(p', u) == PlaceOf(p, u)
    requires p'.readers == if HoldsRead(PlaceOf(p', t)) then p.readers + {t} else p.readers - {t}
    requires if HoldsWrite(PlaceOf(p', t)) then p'.writer == Some(t) && (p.writer == None || p.writer == Some(t))
             else p'.writer == if p.writer == Some(t) then None else p.writer
    requires HoldsWrite(PlaceOf(p', t)) ==> p'.readers == {}
    requires HoldsRead(PlaceOf(p', t)) ==> p'.writer == None
    ensures LockInv(p')
  {
  }

  lemma StepKeepsLocks(p: Pool, e: Event)
    requires Inv(p)
    ensures LockInv(Step(p, e))
  {
    var at := PlaceOf(p, e.t);
    if e.Advance? && CanWork(p.shared, at, e.choice) {
      assert HoldsWrite(at) && Hand(p) == at;
      WorkKeepsShared(p.shared, at, e.choice);
      MoveKeepsLocks(p, e.t, Work(p.shared, at, e.choice).1);
    } else if Step(p, e) != p {
      LockStep(p, Step(p, e), e.t);
    }
  }

  lemma StepKeepsShared(p: Pool, e: Event)
    requires Inv(p)
    ensures SharedInv(Step(p, e).shared, Hand(Step(p, e)))
  {
    var t := e.t;
    var at := PlaceOf(p, t);
    if e.Advance? && CanWork(p.shared, at, e.choice) {
      assert HoldsWrite(at) && Hand(p) == at;
      WorkKeepsShared(p.shared, at, e.choice);
    } else if e.Advance? && HoldsWrite(at) {
      assert p.writer == Some(t) && Hand(p) == at;
    } else if p.writer.Some? && p.writer != Some(t) {
      assert PlaceOf(Step(p, e), p.writer.value) == PlaceOf(p, p.writer.value);
    }
  }

  lemma StepKeepsReaders(p: Pool, e: Event)
    requires Inv(p)
    ensures ReadersInv(Step(p, e))
  {
    var p', t := Step(p, e), e.t;
    assert forall u: Thread :: u != t ==> PlaceOf(p', u) == PlaceOf(p, u);
    if p'.shared != p.shared {
      assert HoldsWrite(PlaceOf(p, t)) && p.readers == {};
      assert forall u: Thread :: !PlaceOf(p, u).HasRead?;
    }
  }

  lemma {:induction false} RunsKeepInv(p: Pool, events: seq<Event>)
    requires Inv(p)
    ensures Inv(Run(p, events))
    decreases |events|
  {
    if events != [] {
      StepKeepsShared(p, events[0]);
      StepKeepsLocks(p, events[0]);
      StepKeepsReaders(p, events[0]);
      RunsKeepInv(Step(p, events[0]), events[1..]);
    }
  }

  // ----- The main results -----

  lemma SizeOfValues(conns: map<Key, Client>)
    requires Injective(conns)
    ensures |conns.Values| == |conns|
    decreases |conns|
  {
    if conns.Keys == {} {
      assert conns.Values == {};
    } else {
      var key :| key in conns;
      var rest := conns - {key};
      SizeOfValues(rest);
      assert rest.Keys == conns.Keys - {key};
      assert conns.Values == rest.Values + {conns[key]} by {
        forall c | c in conns.Values
          ensures c in rest.Values + {conns[key]}
        {
          var k :| k in conns && conns[k] == c;
          assert k != key ==> rest[k] == c;
        }
      }
      assert conns[key] !in rest.Values;
      assert |conns| == |conns.Keys|;
      assert |rest| == |rest.Keys|;
    }
  }

  // In every interleaving: with the write lock free the open clients are exactly those in the map, one for each key;
  // at any time a key has seen at most one more successful dial than removals; a removal by host ends with no entry
  // for that host and port; and what a lookup hands out, under either lock, is the client its own key has in the map,
  // or none when the key has none.
  lemma PoolIsConsistent(events: seq<Event>, key: Key, host: string, port: int, user: string, keyPath: string, socksProxy: string, proxyCommand: string)
    ensures var p := Run(EMPTY, events);
            && (p.writer.None? ==> p.shared.open == p.shared.conns.Values && |p.shared.open| == |p.shared.conns|)
            && p.shared.removals[key] <= p.shared.dials[key] <= p.shared.removals[key] + 1
            && (Hand(p) == Removed(ByHost(host, port)) ==>
                  ConnKey(host, port, user, keyPath, socksProxy, proxyCommand) !in p.shared.conns)
            && (Hand(p) == Removed(ByKey(key)) ==> key !in p.shared.conns)
            && (Hand(p) == Removed(Everything) ==> p.shared.conns == map[] && p.shared.open == {})
            && (Hand(p).GotClient? ==>
                  Hand(p).result == if Hand(p).key in p.shared.conns then Some(p.shared.conns[Hand(p).key]) else None)
            && ReadersInv(p)
  {
    assert Inv(EMPTY);
    RunsKeepInv(EMPTY, events);
    var p := Run(EMPTY, events);
    SizeOfValues(p.shared.conns);
    var k := ConnKey(host, port, user, keyPath, socksProxy, proxyCommand);
    KeyContainsMarker(host, port, user, keyPath, socksProxy, proxyCommand);
    assert k in p.shared.conns ==> k in MatchingKeys(p.shared.conns, ByHost(host, port));
    assert key in p.shared.conns ==> key in MatchingKeys(p.shared.conns, ByKey(key));
    if Hand(p) == Removed(Everything) {
      assert forall k :: k in p.shared.conns ==> k in MatchingKeys(p.shared.conns, Everything);
      assert p.shared.conns.Keys == {};
    }
  }

  // A thread that looks up this key.
  predicate LooksUp(place: Place, key: Key) {
    match place
    case WantRead(k) => k == key
    case Reading(k) => k == key
    case HasRead(k, _) => k == key
    case WantWrite(k) => k == key
    case Checking(k) => k == key
    case Dialing(k) => k == key
    case Dialed(k, _) => k == key
    case GotClient(k, _) => k == key
    case _ => false
  }

  predicate NeverIdle(p: Pool, t: Thread, events: seq<Event>)
    decreases |events|
  {
    PlaceOf(p, t) != Idle && (events == [] || NeverIdle(Step(p, events[0]), t, events[1..]))
  }

  // From its start to its return a lookup is for the key it was started with, whatever other threads do.
  lemma {:induction false} LookupKeepsItsKey(p: Pool, t: Thread, key: Key, events: seq<Event>)
    requires LooksUp(PlaceOf(p, t), key) || PlaceOf(p, t) == Idle
    requires PlaceOf(p, t) == Idle ==> events != [] && events[0] == StartGet(t, key)
    requires events != [] ==> NeverIdle(Step(p, events[0]), t, events[1..])
    ensures LooksUp(PlaceOf(Run(p, events), t), key)
    decreases |events|
  {
    if events != [] {
      LookupKeepsItsKey(Step(p, events[0]), t, key, events[1..]);
    }
  }

  // ----- Getting through -----

  lemma {:induction false} RunAppend(p: Pool, a: seq<Event>, b: seq<Event>)
    ensures Run(p, a + b) == Run(Run(p, a), b)
    decreases |a|
  {
    if a == [] {
      assert a + b == b;
    } else {
      assert (a + b)[1..] == a[1..] + b;
      RunAppend(Step(p, a[0]), a[1..], b);
    }
  }

  lemma RunOne(p: Pool, e: Event)
    ensures Run(p, [e]) == Step(p, e)
  {
    assert [e][1..] == [];
  }

  ghost predicate AllBy(t: Thread, events: seq<Event>) {
    forall i :: 0 <= i < |events| ==> events[i].t == t
  }

  // The threads are as before but for one, and no lock is held.
  ghost predicate BackIdle(p: Pool, p': Pool, t: Thread) {
    && p'.places == p.places[t := Idle] && p'.writer.None? && p'.readers == {}
  }

  // A client read under the read lock is handed out at once, and nothing but that lock is given back.
  lemma HitReturns(p: Pool, t: Thread, key: Key, client: Client, c: Choice)
    requires t in p.places && p.places[t] == HasRead(key, Some(client))
    ensures Step(p, Advance(t, c)) == Pool(p.shared, p.readers - {t}, p.writer, p.places[t := Idle])
  {
  }

  // With the lock free, a lookup on its own gets through: it leaves the key with the client it had, or with the one
  // dialled, and gives the lock back.
  lemma LookupGetsThrough(p: Pool, t: Thread, key: Key, dialed: Option<Client>) returns (events: seq<Event>)
    requires (t in p.places ==> p.places[t] == Idle) && p.writer.None? && p.readers == {}
    requires dialed.Some? ==> dialed.value !in p.shared.created
    ensures AllBy(t, events) && events != [] && events[0] == StartGet(t, key)
    ensures var p' := Run(p, events);
            && BackIdle(p, p', t)
            && p'.shared.conns == (if key in p.shared.conns || dialed.None? then p.shared.conns else p.shared.conns[key := dialed.value])
            && p'.shared.open == p.shared.open + (if key in p.shared.conns || dialed.None? then {} else {dialed.value})
  {
    var go := Advance(t, Choice(dialed, key));
    events := [StartGet(t, key)] + [go, go, go];
    ReadingGoes(p, t, key, go);
    if key !in p.shared.conns {
      var waiting := Run(p, events);
      var rest := WritingGoes(waiting, t, key, dialed);
      RunAppend(p, events, rest);
      events := events + rest;
    }
  }

  lemma ReadingGoes(p: Pool, t: Thread, key: Key, go: Event)
    requires (t in p.places ==> p.places[t] == Idle) && p.writer.None? && p.readers == {} && go.Advance? && go.t == t
    ensures Run(p, [StartGet(t, key)] + [go, go, go]) == p.(places := p.places[t := if key in p.shared.conns then Idle else WantWrite(key)])
  {
    var start := Step(p, StartGet(t, key));
    RunOne(p, StartGet(t, key));
    RunAppend(p, [StartGet(t, key)], [go, go, go]);
    ThreeSteps(start, go);
    var reading := Step(start, go);
    assert reading == Pool(p.shared, {t}, None, p.places[t := Reading(key)]);
    var read := Step(reading, go);
    assert read == Pool(p.shared, {t}, None, p.places[t := HasRead(key, Lookup(p.shared.conns, key))]);
  }

  lemma WritingGoes(p: Pool, t: Thread, key: Key, dialed: Option<Client>) returns (events: seq<Event>)
    requires t in p.places && p.places[t] == WantWrite(key) && p.writer.None? && p.readers == {} && key !in p.shared.conns
    requires dialed.Some? ==> dialed.value !in p.shared.created
    ensures AllBy(t, events)
    ensures var p' := Run(p, events);
            && BackIdle(p, p', t)
            && p'.shared.conns == (if dialed.None? then p.shared.conns else p.shared.conns[key := dialed.value])
            && p'.shared.open == p.shared.open + (if dialed.None? then {} else {dialed.value})
  {
    var go := Advance(t, Choice(dialed, key));
    ThreeSteps(p, go);
    var checking := Step(p, go);
    assert checking == Pool(p.shared, {}, Some(t), p.places[t := Checking(key)]);
    var dialing := Step(checking, go);
    assert dialing == Pool(p.shared, {}, Some(t), p.places[t := Dialing(key)]);
    var last := Step(dialing, go);
    if dialed.None? {
      events := [go, go, go] + [go];
      RunAppend(p, [go, go, go], [go]);
      RunOne(last, go);
    } else {
      events := [go, go, go] + ([go] + [go]);
      RunAppend(p, [go, go, go], [go] + [go]);
      RunAppend(last, [go], [go]);
      RunOne(last, go);
      RunOne(Step(last, go), go);
    }
  }

  lemma ThreeSteps(p: Pool, e: Event)
    ensures Run(p, [e, e, e]) == Step(Step(Step(p, e), e), e)
  {
    RunAppend(p, [e], [e] + [e]);
    RunAppend(Step(p, e), [e], [e]);
    RunOne(p, e);
    RunOne(Step(p, e), e);
    RunOne(Step(Step(p, e), e), e);
    assert [e] + ([e] + [e]) == [e, e, e];
  }

  // And a removal on its own gets through too.
  lemma RemovalGetsThrough(p: Pool, t: Thread, removal: Removal) returns (events: seq<Event>)
    requires (t in p.places ==> p.places[t] == Idle) && p.writer.None? && p.readers == {}
    ensures AllBy(t, events) && events != [] && events[0] == StartRemove(t, removal)
    ensures var p' := Run(p, events); BackIdle(p, p', t) && p'.shared.conns.Keys == p.shared.conns.Keys - MatchingKeys(p.shared.conns, removal)
  {
    var go := Advance(t, Choice(None, ""));
    var begin := [StartRemove(t, removal)] + [go];
    RunAppend(p, [StartRemove(t, removal)], [go]);
    RunOne(p, StartRemove(t, removal));
    RunOne(Step(p, StartRemove(t, removal)), go);
    var q := Run(p, begin);
    var todo := MatchingKeys(p.shared.conns, removal);
    var rest := RemovingEnds(q, t, removal, todo);
    events := begin + rest;
    RunAppend(p, begin, rest);
    assert q.places == p.places[t := Removing(removal, todo)];
  }

  lemma {:induction false} RemovingEnds(p: Pool, t: Thread, removal: Removal, todo: set<Key>) returns (events: seq<Event>)
    requires t in p.places && p.places[t] == Removing(removal, todo) && todo <= p.shared.conns.Keys
    ensures AllBy(t, events)
    ensures var p' := Run(p, events);
            p'.places == p.places[t := Idle] && p'.writer.None? && p'.readers == p.readers && p'.shared.conns.Keys == p.shared.conns.Keys - todo
    decreases |todo|
  {
    if todo == {} {
      var go := Advance(t, Choice(None, ""));
      events := [go] + [go];
      RunAppend(p, [go], [go]);
      RunOne(p, go);
      RunOne(Step(p, go), go);
    } else {
      var key :| key in todo;
      var go := Advance(t, Choice(None, key));
      var closed := Step(p, go);
      var q := Step(closed, go);
      assert closed.places[t] == Closed(removal, key, todo);
      var rest := RemovingEnds(q, t, removal, todo - {key});
      events := ([go] + [go]) + rest;
      RunAppend(p, [go], [go]);
      RunOne(p, go);
      RunOne(closed, go);
      RunAppend(p, [go] + [go], rest);
    }
  }

  // ----- The critical sections -----

  // What holding the write lock does to the map: a lookup that enters a fresh client when it misses, and a removal.
  function AfterGet(conns: map<Key, Client>, key: Key, dialed: Option<Client>): (map<Key, Client>, Option<Client>) {
    if key in conns then (conns, Some(conns[key]))
    else if dialed.None? then (conns, None)
    else (conns[key := dialed.value], dialed)
  }

  // Afterwards the key has the client that is handed out: the one it had, or else the one dialled, if any.
  lemma AfterGetMeans(conns: map<Key, Client>, key: Key, dialed: Option<Client>)
    ensures var (conns', result) := AfterGet(conns, key, dialed);
            && result == (if key in conns then Some(conns[key]) else dialed)
            && result == (if key in conns' then Some(conns'[key]) else None)
            && conns' - {key} == conns - {key}
  {
    var (conns', _) := AfterGet(conns, key, dialed);
    assert forall k :: k != key ==> (k in conns' <==> k in conns) && (k in conns ==> conns'[k] == conns[k]);
  }

  function AfterRemove(conns: map<Key, Client>, removal: Removal): (map<Key, Client>, set<Client>) {
    (conns - MatchingKeys(conns, removal), Clients(conns, MatchingKeys(conns, removal)))
  }

  // What a removal takes out: by host every key with the marker, by key that key, or all of them; and it closes the
  // clients of exactly those.
  lemma AfterRemoveMeans(conns: map<Key, Client>, removal: Removal)
    ensures var (conns', closed) := AfterRemove(conns, removal);
            && conns'.Keys <= conns.Keys && (forall key :: key in conns' ==> conns'[key] == conns[key])
            && closed == (set key | key in conns && key !in conns' :: conns[key])
            && match removal
               case ByHost(host, port) => forall key :: key in conns ==> (key in conns' <==> !Contains(key, Marker(host, port)))
               case ByKey(k) => conns' == conns - {k}
               case Everything => conns' == map[]
  {
    assert removal.ByKey? ==> MatchingKeys(conns, removal) == {removal.key} * conns.Keys;
  }

  // The work of one thread, choice by choice.
  function WorkAll(s: Shared, p: Place, choices: seq<Choice>): (Shared, Place)
    decreases |choices|
  {
    if choices == [] then (s, p)
    else if CanWork(s, p, choices[0]) then
      var (s', p') := Work(s, p, choices[0]);
      WorkAll(s', p', choices[1..])
    else WorkAll(s, p, choices[1..])
  }

  function ChoicesOf(t: Thread, events: seq<Event>): seq<Choice> {
    if events == [] then []
    else (if events[0].Advance? && events[0].t == t then [events[0].choice] else []) + ChoicesOf(t, events[1..])
  }

  // The thread holds the write lock all the way.
  ghost predicate HoldsThroughout(p: Pool, t: Thread, events: seq<Event>)
    decreases |events|
  {
    p.writer == Some(t) && (events == [] || HoldsThroughout(Step(p, events[0]), t, events[1..]))
  }

  // While a thread holds the write lock, what is shared changes by its own work only, whatever other threads do.
  lemma {:induction false} SectionIsOwnWork(p: Pool, t: Thread, events: seq<Event>)
    requires Inv(p) && HoldsThroughout(p, t, events)
    ensures var p' := Run(p, events); (p'.shared, PlaceOf(p', t)) == WorkAll(p.shared, PlaceOf(p, t), ChoicesOf(t, events))
    decreases |events|
  {
    if events != [] {
      var e := events[0];
      StepKeepsLocks(p, e);
      StepKeepsShared(p, e);
      StepKeepsReaders(p, e);
      OneStepInSection(p, t, e);
      SectionIsOwnWork(Step(p, e), t, events[1..]);
      if e.Advance? && e.t == t {
        assert ([e.choice] + ChoicesOf(t, events[1..]))[1..] == ChoicesOf(t, events[1..]);
      } else {
        assert [] + ChoicesOf(t, events[1..]) == ChoicesOf(t, events[1..]);
      }
    }
  }

  lemma OneStepInSection(p: Pool, t: Thread, e: Event)
    requires LockInv(p) && p.writer == Some(t) && Step(p, e).writer == Some(t)
    ensures var p', at := Step(p, e), PlaceOf(p, t);
            if e.Advance? && e.t == t && CanWork(p.shared, at, e.choice) then (p'.shared, PlaceOf(p', t)) == Work(p.shared, at, e.choice)
            else p'.shared == p.shared && PlaceOf(p', t) == at
  {
    assert HoldsWrite(PlaceOf(p, t));
    if e.Advance? && e.t != t {
      assert !HoldsWrite(PlaceOf(p, e.t));
    }
  }

  // Between taking the lock and giving it back, a lookup does to the map what GetLocked does with some dial.
  lemma GetSectionIsGetLocked(p: Pool, t: Thread, key: Key, events: seq<Event>) returns (dialed: Option<Client>)
    requires Inv(p) && HoldsThroughout(p, t, events) && PlaceOf(p, t) == Checking(key)
    requires PlaceOf(Run(p, events), t).GotClient?
    ensures (Run(p, events).shared.conns, PlaceOf(Run(p, events), t).result) == AfterGet(p.shared.conns, key, dialed)
  {
    SectionIsOwnWork(p, t, events);
    dialed := GetWork(p.shared, key, ChoicesOf(t, events));
  }

  lemma {:induction false} GetWork(s: Shared, key: Key, choices: seq<Choice>) returns (dialed: Option<Client>)
    requires WorkAll(s, Checking(key), choices).1.GotClient?
    ensures var (s', p') := WorkAll(s, Checking(key), choices); (s'.conns, p'.result) == AfterGet(s.conns, key, dialed)
  {
    dialed := None;
    var rest := choices[1..];
    if key in s.conns {
      DoneStays(s, GotClient(key, Some(s.conns[key])), rest);
    } else {
      dialed := DialWork(s, key, rest);
    }
  }

  lemma {:induction false} DialWork(s: Shared, key: Key, choices: seq<Choice>) returns (dialed: Option<Client>)
    requires key !in s.conns && WorkAll(s, Dialing(key), choices).1.GotClient?
    ensures var (s', p') := WorkAll(s, Dialing(key), choices); (s'.conns, p'.result) == AfterGet(s.conns, key, dialed)
    decreases |choices|
  {
    if !CanWork(s, Dialing(key), choices[0]) {
      dialed := DialWork(s, key, choices[1..]);
    } else {
      dialed := choices[0].dialed;
      if dialed.None? {
        DoneStays(s, GotClient(key, None), choices[1..]);
      } else {
        var (s', p') := Work(s, Dialing(key), choices[0]);
        assert choices[1..] != [];
        DoneStays(s'.(conns := s'.conns[key := dialed.value]), GotClient(key, dialed), choices[1..][1..]);
      }
    }
  }

  lemma {:induction false} DoneStays(s: Shared, p: Place, choices: seq<Choice>)
    requires p.GotClient? || p.Removed?
    ensures WorkAll(s, p, choices) == (s, p)
    decreases |choices|
  {
    if choices != [] {
      DoneStays(s, p, choices[1..]);
    }
  }

  // And a removal does what RemoveLocked does, in whatever order the entries go.
  lemma RemoveSectionIsRemoveLocked(p: Pool, t: Thread, removal: Removal, events: seq<Event>)
    requires Inv(p) && HoldsThroughout(p, t, events)
    requires PlaceOf(p, t) == Removing(removal, MatchingKeys(p.shared.conns, removal))
    requires PlaceOf(Run(p, events), t).Removed?
    ensures var (conns, closed) := AfterRemove(p.shared.conns, removal);
            Run(p, events).shared.conns == conns && Run(p, events).shared.open == p.shared.open - closed
  {
    SectionIsOwnWork(p, t, events);
    RemoveWork(p.shared, removal, ChoicesOf(t, events));
  }

  lemma {:induction false} RemoveWork(s: Shared, removal: Removal, choices: seq<Choice>)
    requires SharedInv(s, Removing(removal, MatchingKeys(s.conns, removal)))
    requires WorkAll(s, Removing(removal, MatchingKeys(s.conns, removal)), choices).1.Removed?
    ensures var (conns, closed) := AfterRemove(s.conns, removal);
            var s' := WorkAll(s, Removing(removal, MatchingKeys(s.conns, removal)), choices).0;
            s'.conns == conns && s'.open == s.open - closed
    decreases |choices|
  {
    var todo := MatchingKeys(s.conns, removal);
    var c, rest := choices[0], choices[1..];
    if !CanWork(s, Removing(removal, todo), c) {
      RemoveWork(s, removal, rest);
    } else if todo == {} {
      DoneStays(s, Removed(removal), rest);
      assert s.conns - todo == s.conns && Clients(s.conns, todo) == {};
    } else {
      var (s1, p1) := Work(s, Removing(removal, todo), c);
      WorkKeepsShared(s, Removing(removal, todo), c);
      CloseWork(s1, removal, c.key, todo, rest);
      OneOfMatching(s.conns, removal, c.key);
    }
  }

  lemma OneOfMatching(conns: map<Key, Client>, removal: Removal, key: Key)
    requires key in MatchingKeys(conns, removal)
    ensures var (conns', closed) := AfterRemove(conns - {key}, removal);
            AfterRemove(conns, removal) == (conns', closed + {conns[key]})
  {
    var todo := MatchingKeys(conns, removal);
    assert MatchingKeys(conns - {key}, removal) == todo - {key};
    assert conns - todo == (conns - {key}) - (todo - {key});
    var rest := todo - {key};
    assert rest + {key} == todo;
    ClientsOfOneMore(conns, rest, key);
    assert Clients(conns - {key}, rest) == Clients(conns, rest);
  }

  lemma {:induction false} CloseWork(s: Shared, removal: Removal, key: Key, todo: set<Key>, choices: seq<Choice>)
    requires SharedInv(s, Closed(removal, key, todo)) && todo == MatchingKeys(s.conns, removal) && key in todo
    requires WorkAll(s, Closed(removal, key, todo), choices).1.Removed?
    ensures var (conns, closed) := AfterRemove(s.conns - {key}, removal);
            var s' := WorkAll(s, Closed(removal, key, todo), choices).0;
            s'.conns == conns && s'.open == s.open - closed
    decreases |choices|
  {
    var c, rest := choices[0], choices[1..];
    var (s1, p1) := Work(s, Closed(removal, key, todo), c);
    WorkKeepsShared(s, Closed(removal, key, todo), c);
    assert MatchingKeys(s1.conns, removal) == todo - {key};
    RemoveWork(s1, removal, rest);
  }

  // The pool's methods once they hold the write lock.
  class ConnPool {
    var conns: map<Key, Client>
    var closed: set<Client>

    constructor ()
      ensures conns == map[] && closed == {}
    {
      conns, closed := map[], {};
    }

    // The second check of the double-checked lookup, and the insertion of a fresh client when it misses.
    method GetLocked(key: Key, dialed: Option<Client>) returns (client: Option<Client>)
      modifies this
      ensures closed == old(closed)
      ensures (conns, client) == AfterGet(old(conns), key, dialed)
    {
      if key in conns {
        return Some(conns[key]);
      }
      if dialed.None? {
        return None;
      }
      conns := conns[key := dialed.value];
      return dialed;
    }

    // Closing what a removal matches: by host, by key, or everything.
    method RemoveLocked(removal: Removal)
      modifies this
      ensures conns == AfterRemove(old(conns), removal).0 && closed == old(closed) + AfterRemove(old(conns), removal).1
    {
      var todo := conns.Keys;
      ghost var matching := MatchingKeys(conns, removal);
      assert matching - todo == {};
      while todo != {}
        invariant todo <= old(conns).Keys
        invariant LeftAfter(old(conns), old(closed), matching - todo, conns, closed)
        decreases |todo|
      {
        var key :| key in todo;
        LeftAfterOneMore(old(conns), old(closed), matching, todo, key, conns, closed);
        if Matches(removal, key) {
          closed := closed + {conns[key]};
          conns := conns - {key};
        }
        todo := todo - {key};
      }
      assert matching - todo == matching;
    }
  }

  ghost predicate LeftAfter(before: map<Key, Client>, closedBefore: set<Client>, gone: set<Key>, conns: map<Key, Client>, closed: set<Client>) {
    conns == before - gone && closed == closedBefore + Clients(before, gone)
  }

  lemma LeftAfterOneMore(before: map<Key, Client>, closedBefore: set<Client>, matching: set<Key>, todo: set<Key>, key: Key,
                         conns: map<Key, Client>, closed: set<Client>)
    requires key in todo && todo <= before.Keys
    requires LeftAfter(before, closedBefore, matching - todo, conns, closed)
    ensures key in conns
    ensures key in matching ==>
              LeftAfter(before, closedBefore, matching - (todo - {key}), conns - {key}, closed + {conns[key]})
    ensures key !in matching ==> LeftAfter(before, closedBefore, matching - (todo - {key}), conns, closed)
  {
    if key in matching {
      assert matching - (todo - {key}) == (matching - todo) + {key};
      ClientsOfOneMore(before, matching - todo, key);
    } else {
      assert matching - (todo - {key}) == matching - todo;
    }
  }

  function Clients(conns: map<Key, Client>, keys: set<Key>): set<Client> {
    set key | key in keys && key in conns :: conns[key]
  }

  lemma ClientsOfOneMore(conns: map<Key, Client>, keys: set<Key>, key: Key)
    requires key in conns
    ensures Clients(conns, keys + {key}) == Clients(conns, keys) + {conns[key]}
  {
  }
}
