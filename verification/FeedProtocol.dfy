/**
 One client against the run-change endpoints, as a state machine.  Every read that a handler makes is a step of its
 own, and writers may act between any two steps, between the listing of a delta and each of its row reads included.
 */
module FeedProtocol {
  import opened Outcomes
  import opened RunFeed

  // A request in progress: a snapshot after its first or second read, or a delta (stream == false) or event
  // stream whose entries are listed, partly read, and not yet all received.
  datatype Flight =
    | Idle
    | CursorRead(cursor: int)
    | RowsRead(cursor: int, rows: map<RunID, Row>)
    | Feeding(stream: bool, sent: int, listed: seq<Change>, items: seq<Item>)

  datatype World = World(table: Table, client: Option<Client>, flight: Flight)

  datatype Event =
    | Write(mutation: Mutation, gap: nat, at: int)
    | ReadCursor
    | ReadRows
    | TakeSnapshot
    | List(stream: bool, since: Option<int>, limit: int)
    | ReadRow
    | ListMore
    | Receive(missing: MissingRun)
    | ReceiveAll(missing: MissingRun)
    | Abort

  predicate Enabled(w: World, e: Event) {
    match e
    case Write(_, _, _) => true
    case ReadCursor => w.flight.Idle?
    case ReadRows => w.flight.CursorRead?
    case TakeSnapshot => w.flight.RowsRead?
    case List(_, since, _) =>
      w.flight.Idle? && w.client.Some? && (w.client.value.cursor != 0 || since.None?)
    case ReadRow => w.flight.Feeding? && w.flight.listed != []
    case ListMore => w.flight.Feeding? && w.flight.stream && w.flight.listed == []
    case Receive(_) => w.flight.Feeding? && w.flight.stream && w.flight.items != [] && w.client.Some?
    case ReceiveAll(_) => w.flight.Feeding? && !w.flight.stream && w.flight.listed == [] && w.client.Some?
    case Abort => true
  }

  function Step(w: World, e: Event): World {
    if !Enabled(w, e) then w
    else
      match e
      case Write(m, gap, at) => w.(table := Mutate(w.table, m, gap, at))
      case ReadCursor => w.(flight := CursorRead(Latest(w.table.log)))
      case ReadRows => w.(flight := RowsRead(w.flight.cursor, w.table.rows))
      case TakeSnapshot => World(w.table, Some(Client(w.flight.rows, w.flight.cursor)), Idle)
      case List(stream, since, limit) =>
        var after := w.client.value.cursor;
        w.(flight := Feeding(stream, after, ListRunChanges(w.table.log, after, since, limit), []))
      case ReadRow =>
        var item := ReadItem(w.table, w.flight.listed[0]);
        w.(flight := w.flight.(sent := item.change.seqNo, listed := w.flight.listed[1..], items := w.flight.items + [item]))
      case ListMore => w.(flight := w.flight.(listed := ListRunChanges(w.table.log, w.flight.sent, None, 200)))
      case Receive(missing) =>
        w.(client := Some(Apply(w.client.value, w.flight.items[0], missing)), flight := w.flight.(items := w.flight.items[1..]))
      case ReceiveAll(missing) => World(w.table, Some(ApplyAll(w.client.value, w.flight.items, missing)), Idle)
      case Abort => w.(flight := Idle)
  }

  function Run(w: World, events: seq<Event>): World
    decreases |events|
  {
    if events == [] then w else Run(Step(w, events[0]), events[1..])
  }

  ghost predicate FlightInv(w: World) {
    match w.flight
    case Idle => true
    case CursorRead(cursor) => cursor <= Latest(w.table.log)
    case RowsRead(cursor, rows) => cursor <= Latest(w.table.log) && InSync(w.table, Client(rows, cursor))
    case Feeding(_, sent, listed, items) => w.client.Some? && FeedInv(w.table, w.client.value.cursor, sent, listed, items)
  }

  // What is read and listed so far continues the client's cursor without a gap, and every read item is sound.
  ghost predicate FeedInv(t: Table, cursor: int, sent: int, listed: seq<Change>, items: seq<Item>) {
    && Changes(items) + listed <= After(t.log, cursor)
    && ItemsSound(t, items)
    && sent == if items == [] then cursor else items[|items| - 1].change.seqNo
  }

  ghost predicate Inv(w: World) {
    && ValidTable(w.table)
    && (w.client.Some? ==> InSync(w.table, w.client.value) && w.client.value.cursor <= Latest(w.table.log))
    && FlightInv(w)
  }

  // ----- The listing is gap free -----

  // The listing starts right behind the cursor and skips nothing, whatever the log, exactly when the timestamp
  // filter is off: a cursor of zero combined with updated_since can lose entries.
  lemma ListingIsGapFreeIff(after: int, since: Option<int>, limit: int)
    ensures (forall log :: Increasing(log) ==> ListRunChanges(log, after, since, limit) <= After(log, after))
       <==> (after != 0 || since.None?)
  {
    if after == 0 && since.Some? {
      var older, newer := Change(1, "run", Upsert, since.value - 1), Change(2, "run", Upsert, since.value);
      var log := [older, newer];
      assert Increasing(log);
      AllBeyond(log, 0);
      assert Since([older, newer], since) == Since([newer], since) by { assert [older, newer][1..] == [newer]; }
      assert Since([newer], since) == [newer] + Since([], since) by { assert [newer][1..] == []; }
      assert ListRunChanges(log, 0, since, limit)[0] == newer;
    }
  }

  // A listing that is not cut short by its limit holds everything beyond the cursor.
  lemma ListingIsComplete(log: seq<Change>, after: int, since: Option<int>, limit: int)
    requires after != 0 || since.None?
    ensures |After(log, after)| <= EffectiveLimit(limit) ==> ListRunChanges(log, after, since, limit) == After(log, after)
    ensures |After(log, after)| > EffectiveLimit(limit) ==> |ListRunChanges(log, after, since, limit)| == EffectiveLimit(limit)
  {
  }

  // ----- Every step keeps the invariant -----

  lemma WriteKeepsFeed(t: Table, t': Table, cursor: int, sent: int, listed: seq<Change>, items: seq<Item>)
    requires ValidTable(t) && Evolves(t, t')
    requires FeedInv(t, cursor, sent, listed, items)
    ensures FeedInv(t', cursor, sent, listed, items)
  {
    AfterGrows(t.log, t'.log, cursor);
    forall i | 0 <= i < |items|
      ensures ItemSound(t', items[i])
    {
      ReadIsLogged(t.log, cursor, Changes(items), listed, i);
      ItemSoundPersists(t, t', items[i]);
    }
  }

  lemma ReadIsLogged(log: seq<Change>, cursor: int, read: seq<Change>, listed: seq<Change>, i: nat)
    requires Increasing(log) && read + listed <= After(log, cursor) && i < |read|
    ensures read[i].seqNo <= Latest(log)
  {
    assert (read + listed)[i] == read[i] == After(log, cursor)[i];
    SeqNoBelowLatest(log, cursor, i);
  }

  lemma ReadRowKeepsFeed(t: Table, cursor: int, sent: int, listed: seq<Change>, items: seq<Item>)
    requires ValidTable(t) && listed != []
    requires FeedInv(t, cursor, sent, listed, items)
    ensures FeedInv(t, cursor, listed[0].seqNo, listed[1..], items + [ReadItem(t, listed[0])])
  {
    var k := AfterIsSuffix(t.log, cursor);
    assert (Changes(items) + listed)[|items|] == listed[0] == t.log[k + |items|];
    ReadItemSound(t, listed[0]);
    ChangesAppend(items, [ReadItem(t, listed[0])]);
    assert Changes([ReadItem(t, listed[0])]) == [listed[0]];
    ShiftOne(Changes(items), listed[0], listed);
  }

  lemma ListMoreKeepsFeed(t: Table, cursor: int, sent: int, items: seq<Item>)
    requires ValidTable(t)
    requires FeedInv(t, cursor, sent, [], items)
    ensures FeedInv(t, cursor, sent, ListRunChanges(t.log, sent, None, 200), items)
  {
    var ahead, n := After(t.log, cursor), |items|;
    var listed := ListRunChanges(t.log, sent, None, 200);
    assert listed <= After(t.log, sent);
    assert Changes(items) + [] == Changes(items) == ahead[..n];
    if n == 0 {
      assert Changes(items) + listed == listed;
    } else {
      assert Changes(items)[n - 1] == ahead[n - 1];
      AfterContinues(t.log, cursor, n);
      assert ahead == ahead[..n] + ahead[n..];
    }
  }

  lemma PrefixTail<X>(x: X, a: seq<X>, b: seq<X>, ahead: seq<X>)
    requires ([x] + a) + b <= ahead
    ensures [x] <= ahead && a + b <= ahead[1..]
  {
    assert ([x] + a) + b == [x] + (a + b);
  }

  lemma ReceiveKeepsFeed(t: Table, c: Client, sent: int, listed: seq<Change>, items: seq<Item>, missing: MissingRun)
    requires ValidTable(t) && InSync(t, c) && items != []
    requires FeedInv(t, c.cursor, sent, listed, items)
    ensures var c' := Apply(c, items[0], missing);
            InSync(t, c') && c'.cursor <= Latest(t.log) && FeedInv(t, c'.cursor, sent, listed, items[1..])
  {
    PrefixTail(items[0].change, Changes(items[1..]), listed, After(t.log, c.cursor));
    ApplyKeepsSync(t, c, items[0], missing);
    AfterContinues(t.log, c.cursor, 1);
    SeqNoBelowLatest(t.log, c.cursor, 0);
  }

  lemma SeqNoBelowLatest(log: seq<Change>, cursor: int, n: nat)
    requires Increasing(log) && n < |After(log, cursor)|
    ensures After(log, cursor)[n].seqNo <= Latest(log)
  {
    var k := AfterIsSuffix(log, cursor);
    assert After(log, cursor)[n] == log[k + n];
  }

  lemma ReceiveAllKeepsSync(t: Table, c: Client, sent: int, items: seq<Item>, missing: MissingRun)
    requires ValidTable(t) && InSync(t, c) && c.cursor <= Latest(t.log)
    requires FeedInv(t, c.cursor, sent, [], items)
    ensures var c' := ApplyAll(c, items, missing);
            InSync(t, c') && c'.cursor == sent && c'.cursor <= Latest(t.log)
  {
    assert Changes(items) + [] == Changes(items);
    ApplyAllKeepsSync(t, c, items, missing);
    if items != [] {
      assert items[|items| - 1].change == Changes(items)[|items| - 1];
      SeqNoBelowLatest(t.log, c.cursor, |items| - 1);
    }
  }

  lemma WriteKeepsInv(w: World, m: Mutation, gap: nat, at: int)
    requires Inv(w)
    ensures Inv(Step(w, Write(m, gap, at)))
  {
    var t, t' := w.table, Mutate(w.table, m, gap, at);
    MutationEvolves(t, m, gap, at);
    if w.client.Some? {
      InSyncPersists(t, t', w.client.value);
    }
    match w.flight
    case RowsRead(cursor, rows) => InSyncPersists(t, t', Client(rows, cursor));
    case Feeding(_, sent, listed, items) => WriteKeepsFeed(t, t', w.client.value.cursor, sent, listed, items);
    case Idle =>
    case CursorRead(_) =>
  }

  lemma StepKeepsInv(w: World, e: Event)
    requires Inv(w)
    ensures Inv(Step(w, e))
  {
    if Enabled(w, e) {
      match e
      case Write(m, gap, at) => WriteKeepsInv(w, m, gap, at);
      case List(_, since, limit) =>
        ListingIsGapFreeIff(w.client.value.cursor, since, limit);
        assert forall s: seq<Change> :: [] + s == s;
      case ReadRow => ReadRowKeepsFeed(w.table, w.client.value.cursor, w.flight.sent, w.flight.listed, w.flight.items);
      case ListMore => ListMoreKeepsFeed(w.table, w.client.value.cursor, w.flight.sent, w.flight.items);
      case Receive(missing) =>
        ReceiveKeepsFeed(w.table, w.client.value, w.flight.sent, w.flight.listed, w.flight.items, missing);
      case ReceiveAll(missing) => ReceiveAllKeepsSync(w.table, w.client.value, w.flight.sent, w.flight.items, missing);
      case ReadCursor =>
      case ReadRows =>
      case TakeSnapshot =>
      case Abort =>
    }
  }

  // ----- The main results -----

  // From any table, with no client state yet, every interleaving keeps the client in sync.
  lemma {:induction false} RunsKeepSync(w: World, events: seq<Event>)
    requires Inv(w)
    ensures Inv(Run(w, events))
    decreases |events|
  {
    if events != [] {
      StepKeepsInv(w, events[0]);
      RunsKeepSync(Step(w, events[0]), events[1..]);
    }
  }

  lemma ClientsConverge(table: Table, events: seq<Event>)
    requires ValidTable(table)
    ensures var w := Run(World(table, None, Idle), events);
            w.client.Some? ==>
              && InSync(w.table, w.client.value)
              && (After(w.table.log, w.client.value.cursor) == [] ==> w.client.value.replica == w.table.rows)
  {
    var start := World(table, None, Idle);
    RunsKeepSync(start, events);
    var w := Run(start, events);
    if w.client.Some? && After(w.table.log, w.client.value.cursor) == [] {
      CaughtUpReplicaIsTable(w.table, w.client.value);
    }
  }

  // ----- Catching up once the writers are quiet -----

  function ReadItems(t: Table, changes: seq<Change>): (items: seq<Item>)
    ensures |items| == |changes|
    ensures forall i :: 0 <= i < |changes| ==> items[i] == ReadItem(t, changes[i])
  {
    if changes == [] then [] else [ReadItem(t, changes[0])] + ReadItems(t, changes[1..])
  }

  // A delta request and its delivery with no write in between.
  function QuietPoll(t: Table, c: Client, limit: int, missing: MissingRun): Client {
    ApplyAll(c, ReadItems(t, ListRunChanges(t.log, c.cursor, None, limit)), missing)
  }

  lemma {:induction false} RunAppend(w: World, a: seq<Event>, b: seq<Event>)
    ensures Run(w, a + b) == Run(Run(w, a), b)
    decreases |a|
  {
    if a == [] {
      assert a + b == b;
    } else {
      assert (a + b)[1..] == a[1..] + b;
      RunAppend(Step(w, a[0]), a[1..], b);
    }
  }

  lemma RunOne(w: World, e: Event)
    ensures Run(w, [e]) == Step(w, e)
  {
    assert [e][1..] == [];
  }

  // At any time something may be written, and a request may be given up; the client keeps what it has.
  lemma AtAnyTime(w: World, m: Mutation, gap: nat, at: int)
    ensures Step(w, Write(m, gap, at)) == World(Mutate(w.table, m, gap, at), w.client, w.flight)
    ensures Step(w, Abort) == World(w.table, w.client, Idle)
  {
  }

  // Every snapshot gets through, whatever is written while it reads: the client has the rows of its second read and the
  // cursor of its first.
  lemma SnapshotIsARun(w: World, m: Mutation, gap: nat, at: int, m2: Mutation, gap2: nat, at2: int)
    requires w.flight == Idle
    ensures var t1 := Mutate(w.table, m, gap, at);
            Run(w, [ReadCursor, Write(m, gap, at)] + ([ReadRows, Write(m2, gap2, at2)] + [TakeSnapshot])) ==
            World(Mutate(t1, m2, gap2, at2), Some(Client(t1.rows, Latest(w.table.log))), Idle)
  {
    RunAppend(w, [ReadCursor, Write(m, gap, at)], [ReadRows, Write(m2, gap2, at2)] + [TakeSnapshot]);
    var t1 := Mutate(w.table, m, gap, at);
    CursorThenWrite(w, m, gap, at);
    var w1 := World(t1, w.client, CursorRead(Latest(w.table.log)));
    RunAppend(w1, [ReadRows, Write(m2, gap2, at2)], [TakeSnapshot]);
    RowsThenWrite(w1, m2, gap2, at2);
    RunOne(World(Mutate(t1, m2, gap2, at2), w.client, RowsRead(Latest(w.table.log), t1.rows)), TakeSnapshot);
  }

  lemma CursorThenWrite(w: World, m: Mutation, gap: nat, at: int)
    requires w.flight == Idle
    ensures Run(w, [ReadCursor, Write(m, gap, at)]) == World(Mutate(w.table, m, gap, at), w.client, CursorRead(Latest(w.table.log)))
  {
    RunTwo(w, ReadCursor, Write(m, gap, at));
  }

  lemma RowsThenWrite(w: World, m: Mutation, gap: nat, at: int)
    requires w.flight.CursorRead?
    ensures Run(w, [ReadRows, Write(m, gap, at)]) == World(Mutate(w.table, m, gap, at), w.client, RowsRead(w.flight.cursor, w.table.rows))
  {
    RunTwo(w, ReadRows, Write(m, gap, at));
  }

  lemma RunTwo(w: World, a: Event, b: Event)
    ensures Run(w, [a, b]) == Step(Step(w, a), b)
  {
    RunAppend(w, [a], [b]);
    RunOne(w, a);
    RunOne(Step(w, a), b);
    assert [a] + [b] == [a, b];
  }

  function Times(e: Event, n: nat): seq<Event> {
    if n == 0 then [] else [e] + Times(e, n - 1)
  }

  lemma {:induction false} RowsAreRead(t: Table, client: Option<Client>, stream: bool, sent: int, listed: seq<Change>, items: seq<Item>)
    ensures Run(World(t, client, Feeding(stream, sent, listed, items)), Times(ReadRow, |listed|)) ==
            World(t, client, Feeding(stream, if listed == [] then sent else listed[|listed| - 1].seqNo, [], items + ReadItems(t, listed)))
    decreases |listed|
  {
    if listed == [] {
      assert items + [] == items;
    } else {
      var item, rest := ReadItem(t, listed[0]), listed[1..];
      RowsAreRead(t, client, stream, item.change.seqNo, rest, items + [item]);
      assert ([ReadRow] + Times(ReadRow, |rest|))[1..] == Times(ReadRow, |rest|);
      assert ReadItems(t, listed) == [item] + ReadItems(t, rest);
      assert items + ([item] + ReadItems(t, rest)) == items + [item] + ReadItems(t, rest);
      assert Step(World(t, client, Feeding(stream, sent, listed, items)), ReadRow) ==
             World(t, client, Feeding(stream, item.change.seqNo, rest, items + [item]));
    }
  }

  // A quiet delta is a run of the machine: a listing, a read of each row it names, and the delivery.
  lemma QuietPollIsARun(w: World, limit: int, missing: MissingRun)
    requires w.flight == Idle && w.client.Some?
    ensures var listed := ListRunChanges(w.table.log, w.client.value.cursor, None, limit);
            Run(w, [List(false, None, limit)] + (Times(ReadRow, |listed|) + [ReceiveAll(missing)])) ==
            World(w.table, Some(QuietPoll(w.table, w.client.value, limit, missing)), Idle)
  {
    var listed := ListRunChanges(w.table.log, w.client.value.cursor, None, limit);
    var w1 := Step(w, List(false, None, limit));
    RunAppend(w, [List(false, None, limit)], Times(ReadRow, |listed|) + [ReceiveAll(missing)]);
    RunOne(w, List(false, None, limit));
    RunAppend(w1, Times(ReadRow, |listed|), [ReceiveAll(missing)]);
    RowsAreRead(w.table, w.client, false, w.client.value.cursor, listed, []);
    assert [] + ReadItems(w.table, listed) == ReadItems(w.table, listed);
    RunOne(Run(w1, Times(ReadRow, |listed|)), ReceiveAll(missing));
  }

  // So is one round of a stream: what is listed is read and received entry by entry, and the next listing goes on behind it.
  lemma StreamGoesOn(w: World, missing: MissingRun)
    requires w.flight.Feeding? && w.flight.stream && w.client.Some?
    ensures w.flight.listed != [] ==>
              Step(w, ReadRow).flight.items == w.flight.items + [ReadItem(w.table, w.flight.listed[0])] && Step(w, ReadRow).flight.listed == w.flight.listed[1..]
    ensures w.flight.listed == [] ==> Step(w, ListMore).flight == w.flight.(listed := ListRunChanges(w.table.log, w.flight.sent, None, 200))
    ensures w.flight.items != [] ==>
              Step(w, Receive(missing)) == World(w.table, Some(Apply(w.client.value, w.flight.items[0], missing)), w.flight.(items := w.flight.items[1..]))
  {
  }

  function QuietPolls(t: Table, c: Client, limit: int, missing: MissingRun, n: nat): Client
    decreases n
  {
    if n == 0 then c else QuietPolls(t, QuietPoll(t, c, limit, missing), limit, missing, n - 1)
  }

  lemma QuietPollAdvances(t: Table, c: Client, limit: int, missing: MissingRun)
    requires ValidTable(t) && InSync(t, c)
    ensures var listed := ListRunChanges(t.log, c.cursor, None, limit);
            var c' := QuietPoll(t, c, limit, missing);
            InSync(t, c') && After(t.log, c'.cursor) == After(t.log, c.cursor)[|listed|..]
  {
    var listed := ListRunChanges(t.log, c.cursor, None, limit);
    var items := ReadItems(t, listed);
    assert Changes(items) == listed;
    var k := AfterIsSuffix(t.log, c.cursor);
    forall i | 0 <= i < |items|
      ensures ItemSound(t, items[i])
    {
      assert listed[i] == t.log[k + i];
      ReadItemSound(t, listed[i]);
    }
    ApplyAllKeepsSync(t, c, items, missing);
    if listed != [] {
      AfterContinues(t.log, c.cursor, |listed|);
    }
  }

  lemma OnePollLess(pending: nat, n: nat, chunk: nat)
    requires n > 0 && pending <= n * chunk
    ensures (if pending <= chunk then 0 else pending - chunk) <= (n - 1) * chunk
  {
    assert (n - 1) * chunk == n * chunk - chunk;
    assert (n - 1) * chunk >= 0;
  }

  // With the writers quiet, enough polls to cover what is pending make the replica equal to the table.
  lemma {:induction false} QuietPollsReachTable(t: Table, c: Client, limit: int, missing: MissingRun, n: nat)
    requires ValidTable(t) && InSync(t, c)
    requires |After(t.log, c.cursor)| <= n * EffectiveLimit(limit)
    ensures QuietPolls(t, c, limit, missing, n).replica == t.rows
    decreases n
  {
    if n == 0 {
      CaughtUpReplicaIsTable(t, c);
    } else {
      var pending, chunk := |After(t.log, c.cursor)|, EffectiveLimit(limit);
      QuietPollAdvances(t, c, limit, missing);
      var c' := QuietPoll(t, c, limit, missing);
      ListingIsComplete(t.log, c.cursor, None, limit);
      assert |After(t.log, c'.cursor)| == if pending <= chunk then 0 else pending - chunk;
      OnePollLess(pending, n, chunk);
      QuietPollsReachTable(t, c', limit, missing, n - 1);
    }
  }

  // ----- Why the order of the two snapshot reads matters -----

  // Reading the rows first and the cursor second loses any write that falls in between and changes a row: the
  // client is caught up with the log, and will stay so, while its replica is wrong.
  lemma CursorAfterRowsLosesWrites(t: Table, m: Mutation, gap: nat, at: int)
    requires ValidTable(t)
    requires Mutate(t, m, gap, at).rows != t.rows
    ensures var t' := Mutate(t, m, gap, at);
            var c := Client(t.rows, Latest(t'.log));
            && After(t'.log, c.cursor) == []
            && c.replica != t'.rows
            && !InSync(t', c)
  {
    var t' := Mutate(t, m, gap, at);
    var c := Client(t.rows, Latest(t'.log));
    MutationEvolves(t, m, gap, at);
    var k := AfterIsSuffix(t'.log, c.cursor);
    assert t'.log[|t'.log| - 1].seqNo == c.cursor;
    assert k == |t'.log|;
    if InSync(t', c) {
      CaughtUpReplicaIsTable(t', c);
    }
  }

  // The web client keeps the larger of its own cursor and the snapshot's.  That is safe for every table and every
  // sound snapshot exactly when the client was not ahead of the snapshot.
  ghost predicate AdoptingKeepsSync(own: int, snapshot: int) {
    forall t: Table, c: Client, rows: map<RunID, Row> ::
      ValidTable(t) && c.cursor == own && InSync(t, c) && InSync(t, Client(rows, snapshot)) ==>
        InSync(t, Client(rows, if own > snapshot then own else snapshot))
  }

  lemma AdoptingIsSafeIff(own: int, snapshot: int)
    requires own >= 0 && snapshot >= 0
    ensures AdoptingKeepsSync(own, snapshot) <==> own <= snapshot
  {
    if own > snapshot {
      var t := Table(map["run" := "new"], [Change(own, "run", Upsert, 0)]);
      var c, stale := Client(t.rows, own), Client(map[], snapshot);
      assert ValidTable(t) && InSync(t, c);
      assert ChangedAfter(t.log, "run", snapshot) by { assert t.log[0].run == "run"; }
      assert InSync(t, stale);
      var adopted := Client(stale.replica, own);
      assert Lookup(adopted.replica, "run") != Lookup(t.rows, "run") && !ChangedAfter(t.log, "run", own);
      assert !InSync(t, adopted);
    }
  }
}
