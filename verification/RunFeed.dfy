/**
 The run-change feed of internal/api/server.go.

 A run table carries a durable change log: the triggers of internal/store/schema.sql append one entry, with a
 strictly larger sequence number, in the same atomic step as every insert, update or delete of a run.  A client
 builds a replica of the table from a snapshot (cursor first, rows second) and then follows the log, where each
 entry is delivered together with the row as it is when the entry is read, not as it was when it was written.
 Writers may act between any two reads.
 */
module RunFeed {
  import opened Outcomes
  import Seqs

  type RunID = string
  type Row = string

  // ----- The run table and its change log -----

  datatype Operation = Upsert | Delete

  datatype Change = Change(seqNo: int, run: RunID, op: Operation, changedAt: int)

  datatype Table = Table(rows: map<RunID, Row>, log: seq<Change>)

  function Lookup(rows: map<RunID, Row>, run: RunID): Option<Row> {
    if run in rows then Some(rows[run]) else None
  }

  ghost predicate Increasing(log: seq<Change>) {
    && (forall i :: 0 <= i < |log| ==> log[i].seqNo > 0)
    && (forall i, j :: 0 <= i < j < |log| ==> log[i].seqNo < log[j].seqNo)
  }

  // Some entry for this run lies beyond the cursor.
  ghost predicate ChangedAfter(log: seq<Change>, run: RunID, cursor: int) {
    exists i :: 0 <= i < |log| && log[i].run == run && log[i].seqNo > cursor
  }

  // An entry that disagrees with the table about the existence of its run is followed by a later one for that run.
  ghost predicate LogExplainsRows(t: Table) {
    forall i :: 0 <= i < |t.log| && (t.log[i].op == Upsert) != (t.log[i].run in t.rows) ==>
                  ChangedAfter(t.log, t.log[i].run, t.log[i].seqNo)
  }

  ghost predicate ValidTable(t: Table) {
    Increasing(t.log) && LogExplainsRows(t)
  }

  function Latest(log: seq<Change>): int {
    if log == [] then 0 else log[|log| - 1].seqNo
  }

  // The cursor of a log: its largest number, and 0 while it is empty.
  lemma LatestIsLargest(log: seq<Change>)
    requires Increasing(log)
    ensures log == [] ==> Latest(log) == 0
    ensures forall i :: 0 <= i < |log| ==> log[i].seqNo <= Latest(log)
    ensures log != [] ==> Latest(log) > 0 && exists i :: 0 <= i < |log| && log[i].seqNo == Latest(log)
  {
    if log != [] {
      assert log[|log| - 1].seqNo == Latest(log);
    }
  }

  datatype Mutation = Put(run: RunID, row: Row) | Remove(run: RunID)

  // One write and its log entry; deleting an absent row fires no trigger.
  function Mutate(t: Table, m: Mutation, gap: nat, at: int): Table {
    var seqNo := Latest(t.log) + 1 + gap;
    match m
    case Put(run, row) => Table(t.rows[run := row], t.log + [Change(seqNo, run, Upsert, at)])
    case Remove(run) =>
      if run in t.rows then Table(t.rows - {run}, t.log + [Change(seqNo, run, Delete, at)]) else t
  }

  // A write shows in its own row only, and adds one entry for it, behind all others; deleting an absent row does nothing.
  lemma MutationMeans(t: Table, m: Mutation, gap: nat, at: int)
    ensures var t' := Mutate(t, m, gap, at);
            && (forall run :: run != m.run ==> Lookup(t'.rows, run) == Lookup(t.rows, run))
            && Lookup(t'.rows, m.run) == (if m.Put? then Some(m.row) else None)
            && (m.Remove? && m.run !in t.rows ==> t' == t)
            && (m.Put? || m.run in t.rows ==>
                  && |t'.log| == |t.log| + 1 && t'.log[..|t.log|] == t.log
                  && var c := t'.log[|t.log|];
                     c.run == m.run && c.op == (if m.Put? then Upsert else Delete) && c.changedAt == at && c.seqNo == Latest(t.log) + gap + 1)
  {
  }

  // What any amount of writing does to the table: the log grows, and a row that differs has an entry to show for it.
  ghost predicate Evolves(t: Table, t': Table) {
    && t.log <= t'.log
    && Latest(t.log) <= Latest(t'.log)
    && forall run :: Lookup(t.rows, run) == Lookup(t'.rows, run) || ChangedAfter(t'.log, run, Latest(t.log))
  }

  lemma MutationExtendsLog(t: Table, m: Mutation, gap: nat, at: int)
    requires Increasing(t.log)
    ensures var t' := Mutate(t, m, gap, at);
            && Increasing(t'.log) && t.log <= t'.log && Latest(t.log) <= Latest(t'.log)
            && (t' != t ==> ChangedAfter(t'.log, m.run, Latest(t.log)))
  {
    var t' := Mutate(t, m, gap, at);
    if t' != t {
      var last := |t.log|;
      assert t'.log[last].run == m.run && t'.log[last].seqNo > Latest(t.log);
    }
  }

  lemma MutationEvolves(t: Table, m: Mutation, gap: nat, at: int)
    requires ValidTable(t)
    ensures ValidTable(Mutate(t, m, gap, at)) && Evolves(t, Mutate(t, m, gap, at))
  {
    var t' := Mutate(t, m, gap, at);
    MutationExtendsLog(t, m, gap, at);
    forall i | 0 <= i < |t'.log| && (t'.log[i].op == Upsert) != (t'.log[i].run in t'.rows)
      ensures ChangedAfter(t'.log, t'.log[i].run, t'.log[i].seqNo)
    {
      if t'.log[i].run != m.run {
        assert t'.log[i] == t.log[i];
        ChangedAfterPersists(t, t', t.log[i].run, t.log[i].seqNo);
      } else if t' != t {
        assert i < |t.log| && t'.log[i] == t.log[i];
      }
    }
  }

  lemma ChangedAfterPersists(t: Table, t': Table, run: RunID, cursor: int)
    requires t.log <= t'.log && ChangedAfter(t.log, run, cursor)
    ensures ChangedAfter(t'.log, run, cursor)
  {
    var i :| 0 <= i < |t.log| && t.log[i].run == run && t.log[i].seqNo > cursor;
    assert t'.log[i] == t.log[i];
  }

  lemma EvolvesTransitive(t: Table, t': Table, t'': Table)
    requires Evolves(t, t') && Evolves(t', t'')
    ensures Evolves(t, t'')
  {
    forall run
      ensures Lookup(t.rows, run) == Lookup(t''.rows, run) || ChangedAfter(t''.log, run, Latest(t.log))
    {
      if ChangedAfter(t'.log, run, Latest(t.log)) {
        ChangedAfterPersists(t', t'', run, Latest(t.log));
      }
    }
  }

  // ----- Reading the log -----

  // The entries beyond a cursor, in log order.
  function After(log: seq<Change>, cursor: int): seq<Change> {
    if log == [] then []
    else if log[0].seqNo > cursor then [log[0]] + After(log[1..], cursor)
    else After(log[1..], cursor)
  }

  function Since(changes: seq<Change>, since: Option<int>): seq<Change> {
    if since.None? || changes == [] then changes
    else (if changes[0].changedAt >= since.value then [changes[0]] else []) + Since(changes[1..], since)
  }

  function EffectiveLimit(limit: int): nat {
    if limit <= 0 || limit > 1000 then 200 else limit
  }

  function Take<T>(s: seq<T>, n: nat): seq<T> {
    if n < |s| then s[..n] else s
  }

  // The query behind both endpoints.  The timestamp only filters when there is no sequence cursor.
  function ListRunChanges(log: seq<Change>, after: int, since: Option<int>, limit: int): seq<Change> {
    Take(Since(After(log, after), if after == 0 then since else None), EffectiveLimit(limit))
  }

  // The first entries, in log order, of those beyond the cursor and, by time only when the cursor is 0, not older than
  // the time asked for: as many as asked for, or 200 when that is no number from 1 to 1000.
  lemma ListingMeans(log: seq<Change>, after: int, since: Option<int>, limit: int)
    ensures var wanted := Seqs.Filter(log, (c: Change) => c.seqNo > after && (after == 0 && since.Some? ==> c.changedAt >= since.value));
            var most := if 1 <= limit <= 1000 then limit else 200;
            ListRunChanges(log, after, since, limit) == if |wanted| <= most then wanted else wanted[..most]
  {
    FilteredListing(log, after, if after == 0 then since else None, (c: Change) => c.seqNo > after && (after == 0 && since.Some? ==> c.changedAt >= since.value));
  }

  lemma {:induction false} FilteredListing(log: seq<Change>, after: int, since: Option<int>, wanted: Change -> bool)
    requires forall c :: wanted(c) <==> c.seqNo > after && (since.Some? ==> c.changedAt >= since.value)
    ensures Since(After(log, after), since) == Seqs.Filter(log, wanted)
  {
    if log != [] {
      FilteredListing(log[1..], after, since, wanted);
      assert log[0].seqNo > after ==> ([log[0]] + After(log[1..], after))[1..] == After(log[1..], after);
    }
  }

  lemma {:induction false} AfterSplits(a: seq<Change>, b: seq<Change>, cursor: int)
    ensures After(a + b, cursor) == After(a, cursor) + After(b, cursor)
  {
    if a == [] {
      assert a + b == b;
    } else {
      assert (a + b)[1..] == a[1..] + b;
      AfterSplits(a[1..], b, cursor);
    }
  }

  lemma AfterGrows(log: seq<Change>, log': seq<Change>, cursor: int)
    requires log <= log'
    ensures After(log, cursor) <= After(log', cursor)
  {
    assert log' == log + log'[|log|..];
    AfterSplits(log, log'[|log|..], cursor);
  }

  lemma {:induction false} AllBeyond(events: seq<Change>, cursor: int)
    requires forall i :: 0 <= i < |events| ==> events[i].seqNo > cursor
    ensures After(events, cursor) == events
  {
    if events != [] {
      AllBeyond(events[1..], cursor);
    }
  }

  lemma {:induction false} NoneBeyond(events: seq<Change>, cursor: int)
    requires forall i :: 0 <= i < |events| ==> events[i].seqNo <= cursor
    ensures After(events, cursor) == []
  {
    if events != [] {
      NoneBeyond(events[1..], cursor);
    }
  }

  // The entries beyond the cursor start at index k.
  ghost predicate CutAt(log: seq<Change>, cursor: int, k: nat) {
    k <= |log| && forall i :: 0 <= i < |log| ==> (log[i].seqNo > cursor <==> i >= k)
  }

  // In a growing log the entries beyond a cursor are exactly a suffix.
  lemma {:induction false} AfterIsSuffix(log: seq<Change>, cursor: int) returns (k: nat)
    requires Increasing(log)
    ensures CutAt(log, cursor, k) && After(log, cursor) == log[k..]
  {
    if log == [] {
      k := 0;
    } else if log[0].seqNo > cursor {
      AllBeyond(log, cursor);
      k := 0;
    } else {
      var k' := AfterIsSuffix(log[1..], cursor);
      k := k' + 1;
      assert forall i :: 1 <= i < |log| ==> log[i] == log[1..][i - 1];
    }
  }

  // Reading on from the n-th entry beyond a cursor continues exactly where that entry left off.
  lemma AfterContinues(log: seq<Change>, cursor: int, n: nat)
    requires Increasing(log) && 0 < n <= |After(log, cursor)|
    ensures cursor < After(log, cursor)[n - 1].seqNo
    ensures After(log, After(log, cursor)[n - 1].seqNo) == After(log, cursor)[n..]
  {
    var k := AfterIsSuffix(log, cursor);
    var middle := log[k + n - 1].seqNo;
    assert After(log, cursor)[n - 1] == log[k + n - 1];
    var k' := AfterIsSuffix(log, middle);
    assert k + n - 1 < k';
    assert k + n < |log| ==> log[k + n].seqNo > middle;
    assert log[k..][n..] == log[k + n..];
  }

  // ----- The client -----

  datatype Item = Item(change: Change, run: Option<Row>)

  datatype Client = Client(replica: map<RunID, Row>, cursor: int)

  // A client either drops a run delivered without a row or ignores it; both are covered.
  datatype MissingRun = DropIt | IgnoreIt

  function Apply(c: Client, item: Item, missing: MissingRun): Client {
    var run := item.change.run;
    var replica :=
      if item.change.op == Delete then c.replica - {run}
      else if item.run.Some? then c.replica[run := item.run.value]
      else if missing == DropIt then c.replica - {run}
      else c.replica;
    Client(replica, item.change.seqNo)
  }

  // A client takes a delivered row, drops a deleted run, and either drops or keeps a run that comes without a row; it
  // moves to the entry's number and leaves every other run alone.
  lemma ApplyMeans(c: Client, item: Item, missing: MissingRun)
    ensures var c', run := Apply(c, item, missing), item.change.run;
            && c'.cursor == item.change.seqNo
            && (forall other :: other != run ==> Lookup(c'.replica, other) == Lookup(c.replica, other))
            && (item.change.op == Delete ==> Lookup(c'.replica, run) == None)
            && (item.change.op == Upsert && item.run.Some? ==> Lookup(c'.replica, run) == item.run)
            && (item.change.op == Upsert && item.run.None? && missing == DropIt ==> Lookup(c'.replica, run) == None)
            && (item.change.op == Upsert && item.run.None? && missing == IgnoreIt ==> c'.replica == c.replica)
  {
  }

  function ApplyAll(c: Client, items: seq<Item>, missing: MissingRun): Client
    decreases |items|
  {
    if items == [] then c else ApplyAll(Apply(c, items[0], missing), items[1..], missing)
  }

  function Changes(items: seq<Item>): (changes: seq<Change>)
    ensures |changes| == |items|
    ensures forall i :: 0 <= i < |items| ==> changes[i] == items[i].change
  {
    if items == [] then [] else [items[0].change] + Changes(items[1..])
  }

  lemma {:induction false} ChangesAppend(a: seq<Item>, b: seq<Item>)
    ensures Changes(a + b) == Changes(a) + Changes(b)
  {
    if a == [] {
      assert a + b == b;
    } else {
      assert (a + b)[1..] == a[1..] + b;
      ChangesAppend(a[1..], b);
    }
  }

  lemma ShiftOne<X>(a: seq<X>, x: X, rest: seq<X>)
    requires rest != [] && rest[0] == x
    ensures (a + [x]) + rest[1..] == a + rest
  {
  }

  // Every run is up to date at the client, or an entry for it is still to come.
  ghost predicate InSync(t: Table, c: Client) {
    forall run :: Lookup(c.replica, run) == Lookup(t.rows, run) || ChangedAfter(t.log, run, c.cursor)
  }

  // What the item says about its run is current, or a later entry for that run exists.
  ghost predicate ItemSound(t: Table, item: Item) {
    && (item.change.op == Delete ==> item.run.None?)
    && (item.run == Lookup(t.rows, item.change.run) || ChangedAfter(t.log, item.change.run, item.change.seqNo))
    && (item.change.op == Upsert && item.run.None? ==> ChangedAfter(t.log, item.change.run, item.change.seqNo))
  }

  ghost predicate ItemsSound(t: Table, items: seq<Item>) {
    forall i :: 0 <= i < |items| ==> ItemSound(t, items[i])
  }

  // The row is read once per upsert; a delete is sent without one.
  function ReadItem(t: Table, change: Change): Item {
    Item(change, if change.op == Delete then None else Lookup(t.rows, change.run))
  }

  lemma ReadItemSound(t: Table, change: Change)
    requires ValidTable(t) && change in t.log
    ensures ItemSound(t, ReadItem(t, change))
  {
    var i :| 0 <= i < |t.log| && t.log[i] == change;
  }

  lemma ItemSoundPersists(t: Table, t': Table, item: Item)
    requires ItemSound(t, item) && Evolves(t, t') && item.change.seqNo <= Latest(t.log)
    ensures ItemSound(t', item)
  {
    var run := item.change.run;
    if ChangedAfter(t.log, run, item.change.seqNo) {
      ChangedAfterPersists(t, t', run, item.change.seqNo);
    } else if item.run != Lookup(t'.rows, run) {
      var i :| 0 <= i < |t'.log| && t'.log[i].run == run && t'.log[i].seqNo > Latest(t.log);
    }
  }

  lemma InSyncPersists(t: Table, t': Table, c: Client)
    requires InSync(t, c) && Evolves(t, t') && c.cursor <= Latest(t.log)
    ensures InSync(t', c)
  {
    forall run
      ensures Lookup(c.replica, run) == Lookup(t'.rows, run) || ChangedAfter(t'.log, run, c.cursor)
    {
      if ChangedAfter(t.log, run, c.cursor) {
        ChangedAfterPersists(t, t', run, c.cursor);
      } else if Lookup(t.rows, run) != Lookup(t'.rows, run) {
        var i :| 0 <= i < |t'.log| && t'.log[i].run == run && t'.log[i].seqNo > Latest(t.log);
      }
    }
  }

  // Applying the very next entry keeps the client in sync, whichever way it treats a missing run.
  lemma ApplyKeepsSync(t: Table, c: Client, item: Item, missing: MissingRun)
    requires Increasing(t.log) && InSync(t, c) && ItemSound(t, item)
    requires [item.change] <= After(t.log, c.cursor)
    ensures InSync(t, Apply(c, item, missing))
  {
    var c' := Apply(c, item, missing);
    var k := AfterIsSuffix(t.log, c.cursor);
    assert t.log[k] == item.change;
    forall run | run != item.change.run && ChangedAfter(t.log, run, c.cursor)
      ensures ChangedAfter(t.log, run, c'.cursor)
    {
      var i :| 0 <= i < |t.log| && t.log[i].run == run && t.log[i].seqNo > c.cursor;
      assert i > k;
    }
  }

  lemma {:induction false} ApplyAllKeepsSync(t: Table, c: Client, items: seq<Item>, missing: MissingRun)
    requires Increasing(t.log) && InSync(t, c) && ItemsSound(t, items)
    requires Changes(items) <= After(t.log, c.cursor)
    ensures InSync(t, ApplyAll(c, items, missing))
    ensures ApplyAll(c, items, missing).cursor == if items == [] then c.cursor else items[|items| - 1].change.seqNo
    decreases |items|
  {
    if items != [] {
      var c' := Apply(c, items[0], missing);
      assert [items[0].change] <= After(t.log, c.cursor);
      ApplyKeepsSync(t, c, items[0], missing);
      AfterContinues(t.log, c.cursor, 1);
      assert Changes(items)[1..] == Changes(items[1..]);
      ApplyAllKeepsSync(t, c', items[1..], missing);
    }
  }

  // With nothing left to read, the replica is the table.
  lemma CaughtUpReplicaIsTable(t: Table, c: Client)
    requires Increasing(t.log) && InSync(t, c) && After(t.log, c.cursor) == []
    ensures c.replica == t.rows
  {
    var k := AfterIsSuffix(t.log, c.cursor);
    assert k == |t.log|;
    assert forall run :: !ChangedAfter(t.log, run, c.cursor);
    assert forall run :: run in c.replica ==> Lookup(c.replica, run) == Lookup(t.rows, run);
    assert forall run :: run in t.rows ==> Lookup(c.replica, run) == Lookup(t.rows, run);
  }
}
