/**
 The list of active runs: a snapshot of the active rows, cursor first, kept up to date from the same change log. A run
 enters and leaves the list as its current row is or is not active.
 */
module ActiveFeed {
  import opened Outcomes
  import opened RunFeed

  type Activity = Row -> bool

  function Shown(row: Option<Row>, active: Activity): Option<Row> {
    if row.Some? && active(row.value) then row else None
  }

  function ActiveRows(rows: map<RunID, Row>, active: Activity): map<RunID, Row> {
    map run | run in rows && active(rows[run]) :: rows[run]
  }

  // Every run is on the list exactly as its row is active now, or an entry for it is still to come.
  ghost predicate ActiveInSync(t: Table, list: Client, active: Activity) {
    forall run :: Lookup(list.replica, run) == Shown(Lookup(t.rows, run), active) || ChangedAfter(t.log, run, list.cursor)
  }

  function ApplyActive(list: Client, item: Item, active: Activity): Client {
    var run := item.change.run;
    var without := list.replica - {run};
    var on := item.change.op == Upsert && item.run.Some? && active(item.run.value);
    Client(if on then without[run := item.run.value] else without, item.change.seqNo)
  }

  function ApplyAllActive(list: Client, items: seq<Item>, active: Activity): Client
    decreases |items|
  {
    if items == [] then list else ApplyAllActive(ApplyActive(list, items[0], active), items[1..], active)
  }

  // The active rows of a snapshot in sync are a list in sync.
  lemma ActiveSnapshotInSync(t: Table, snapshot: Client, active: Activity)
    requires InSync(t, snapshot)
    ensures ActiveInSync(t, Client(ActiveRows(snapshot.replica, active), snapshot.cursor), active)
  {
    var list := ActiveRows(snapshot.replica, active);
    forall run
      ensures Lookup(list, run) == Shown(Lookup(t.rows, run), active) || ChangedAfter(t.log, run, snapshot.cursor)
    {
      assert Lookup(snapshot.replica, run) == Lookup(t.rows, run) || ChangedAfter(t.log, run, snapshot.cursor);
    }
  }

  // Applying the very next entry keeps the list in sync.
  lemma ApplyActiveKeepsSync(t: Table, list: Client, item: Item, active: Activity)
    requires Increasing(t.log) && ActiveInSync(t, list, active) && ItemSound(t, item)
    requires [item.change] <= After(t.log, list.cursor)
    ensures ActiveInSync(t, ApplyActive(list, item, active), active)
  {
    var list' := ApplyActive(list, item, active);
    var k := AfterIsSuffix(t.log, list.cursor);
    assert t.log[k] == item.change;
    forall run
      ensures Lookup(list'.replica, run) == Shown(Lookup(t.rows, run), active) || ChangedAfter(t.log, run, list'.cursor)
    {
      if run != item.change.run {
        assert Lookup(list'.replica, run) == Lookup(list.replica, run);
        if ChangedAfter(t.log, run, list.cursor) {
          var i :| 0 <= i < |t.log| && t.log[i].run == run && t.log[i].seqNo > list.cursor;
          assert i > k;
        }
      }
    }
  }

  lemma {:induction false} ApplyAllActiveKeepsSync(t: Table, list: Client, items: seq<Item>, active: Activity)
    requires Increasing(t.log) && ActiveInSync(t, list, active) && ItemsSound(t, items)
    requires Changes(items) <= After(t.log, list.cursor)
    ensures ActiveInSync(t, ApplyAllActive(list, items, active), active)
    ensures After(t.log, ApplyAllActive(list, items, active).cursor) == After(t.log, list.cursor)[|items|..]
    decreases |items|
  {
    if items != [] {
      var rest := After(t.log, list.cursor);
      assert [items[0].change] <= rest;
      ApplyActiveKeepsSync(t, list, items[0], active);
      AfterContinues(t.log, list.cursor, 1);
      assert Changes(items)[1..] == Changes(items[1..]);
      ApplyAllActiveKeepsSync(t, ApplyActive(list, items[0], active), items[1..], active);
      assert rest[1..][|items| - 1..] == rest[|items|..];
    }
  }

  // A snapshot of the active rows brought up to the end of the log is the list of active runs, although every entry
  // came with the row as it was when it was read.
  lemma ActiveListConverges(t: Table, snapshot: Client, items: seq<Item>, active: Activity)
    requires ValidTable(t) && InSync(t, snapshot) && ItemsSound(t, items)
    requires Changes(items) == After(t.log, snapshot.cursor)
    ensures ApplyAllActive(Client(ActiveRows(snapshot.replica, active), snapshot.cursor), items, active).replica == ActiveRows(t.rows, active)
  {
    var start := Client(ActiveRows(snapshot.replica, active), snapshot.cursor);
    ActiveSnapshotInSync(t, snapshot, active);
    ApplyAllActiveKeepsSync(t, start, items, active);
    CaughtUpListIsActiveRows(t, ApplyAllActive(start, items, active), active);
  }

  lemma CaughtUpListIsActiveRows(t: Table, list: Client, active: Activity)
    requires Increasing(t.log) && ActiveInSync(t, list, active) && After(t.log, list.cursor) == []
    ensures list.replica == ActiveRows(t.rows, active)
  {
    var k := AfterIsSuffix(t.log, list.cursor);
    assert k == |t.log|;
    assert forall run :: !ChangedAfter(t.log, run, list.cursor);
    forall run
      ensures Lookup(list.replica, run) == Lookup(ActiveRows(t.rows, active), run)
    {
      assert Lookup(list.replica, run) == Shown(Lookup(t.rows, run), active);
    }
    assert forall run :: run in list.replica <==> Lookup(list.replica, run).Some?;
    assert forall run :: run in ActiveRows(t.rows, active) <==> Lookup(ActiveRows(t.rows, active), run).Some?;
  }
}
