/**
 The handlers of the run-change endpoints as they run: over a table that other processes keep writing between any
 two of their reads, and with a store that may fail at any read.
 */
module FeedServer {
  import opened Outcomes
  import opened RunFeed
  import opened ActiveFeed
  import opened FeedProtocol

  datatype DBError = DBError

  datatype SnapshotPage = SnapshotPage(rows: map<RunID, Row>, changeCursor: int)

  datatype DeltaResponse = DeltaResponse(items: seq<Item>, nextSeq: int)

  // The cursor a stream starts from: the query parameter, or the Last-Event-ID header when that is zero.  A value
  // that does not parse counts as zero in the query and as absent in the header.
  function ResumeCursor(query: int, lastEventID: Option<int>): int {
    if query == 0 && lastEventID.Some? then lastEventID.value else query
  }

  // The items continue a cursor without gap or duplicate and are all sound.
  ghost predicate Delivers(t: Table, after: int, items: seq<Item>) {
    Changes(items) <= After(t.log, after) && ItemsSound(t, items)
  }

  // Everything that was in the log is sent, or at least this many entries are.
  ghost predicate Covers(log: seq<Change>, start: int, sent: seq<Item>, count: nat) {
    |sent| >= count || After(log, start) <= Changes(sent)
  }

  function LastSeq(after: int, items: seq<Item>): int {
    if items == [] then after else items[|items| - 1].change.seqNo
  }

  class RunServer {
    var rows: map<RunID, Row>
    var log: seq<Change>

    ghost function T(): Table
      reads this
    {
      Table(rows, log)
    }

    ghost predicate Valid()
      reads this
    {
      ValidTable(T())
    }

    // Any number of writes by the reconciler, the command line or another server process.
    method OtherWriters()
      requires Valid()
      modifies this
      ensures Valid() && Evolves(old(T()), T())
    {
      var writes: nat := *;
      while writes > 0
        invariant Valid() && Evolves(old(T()), T())
      {
        var mutation: Mutation, gap: nat, at: int := *, *, *;
        ghost var before := T();
        MutationEvolves(before, mutation, gap, at);
        var after := Mutate(Table(rows, log), mutation, gap, at);
        rows, log := after.rows, after.log;
        EvolvesTransitive(old(T()), before, T());
        writes := writes - 1;
      }
    }

    method HandleListRunSummaries() returns (r: Result<SnapshotPage, DBError>)
      requires Valid()
      modifies this
      ensures Valid() && Evolves(old(T()), T())
      ensures r.Ok? ==> InSync(T(), Client(r.value.rows, r.value.changeCursor))
      ensures r.Ok? ==> Latest(old(log)) <= r.value.changeCursor <= Latest(log)
    {
      OtherWriters();
      var changeCursor := Latest(log);
      ghost var cursorRead := T();
      OtherWriters();
      EvolvesTransitive(old(T()), cursorRead, T());
      var fails: bool := *;
      if fails {
        return Err(DBError);
      }
      var summaries := rows;
      ghost var rowsRead := T();
      assert InSync(rowsRead, Client(summaries, changeCursor));
      OtherWriters();
      EvolvesTransitive(old(T()), rowsRead, T());
      InSyncPersists(rowsRead, T(), Client(summaries, changeCursor));
      return Ok(SnapshotPage(summaries, changeCursor));
    }

    // The page of active runs, cursor first as well.
    method HandleListActiveRunSummaries(active: Activity) returns (r: Result<SnapshotPage, DBError>)
      requires Valid()
      modifies this
      ensures Valid() && Evolves(old(T()), T())
      ensures r.Ok? ==> ActiveInSync(T(), Client(r.value.rows, r.value.changeCursor), active)
      ensures r.Ok? ==> Latest(old(log)) <= r.value.changeCursor <= Latest(log)
    {
      OtherWriters();
      var changeCursor := Latest(log);
      ghost var cursorRead := T();
      OtherWriters();
      EvolvesTransitive(old(T()), cursorRead, T());
      var fails: bool := *;
      if fails {
        return Err(DBError);
      }
      ghost var all := rows;
      var summaries := ActiveRows(rows, active);
      ghost var rowsRead := T();
      assert InSync(rowsRead, Client(all, changeCursor));
      OtherWriters();
      EvolvesTransitive(old(T()), rowsRead, T());
      InSyncPersists(rowsRead, T(), Client(all, changeCursor));
      ActiveSnapshotInSync(T(), Client(all, changeCursor), active);
      return Ok(SnapshotPage(summaries, changeCursor));
    }

    // Reads the row of one entry, after other writers may have acted; the store may fail unless no row is read.
    method ReadSummary(change: Change) returns (item: Item, ok: bool)
      requires Valid() && change in log
      modifies this
      ensures Valid() && Evolves(old(T()), T())
      ensures ok ==> item.change == change && ItemSound(T(), item)
      ensures change.op == Delete ==> ok
    {
      ghost var before := T();
      OtherWriters();
      ghost var k :| 0 <= k < |before.log| && before.log[k] == change;
      assert log[k] == change;
      ReadItemSound(T(), change);
      var fails: bool := *;
      item, ok := ReadItem(Table(rows, log), change), change.op == Delete || !fails;
    }

    // Extends what is read of a listing by its next entry.
    method ReadNext(changes: seq<Change>, items: seq<Item>) returns (items': seq<Item>, ok: bool)
      requires Valid() && |items| < |changes| && ReadsListing(T(), changes, items)
      modifies this
      ensures Valid() && Evolves(old(T()), T())
      ensures ReadsListing(T(), changes, items')
      ensures |items'| == if ok then |items| + 1 else |items|
    {
      ghost var before := T();
      var item;
      item, ok := ReadSummary(changes[|items|]);
      ItemsSoundPersist(before, T(), changes, items);
      if ok {
        OneMore(items, item, changes);
      }
      items' := if ok then items + [item] else items;
    }

    // One row read per listed entry.  When the store fails part way, the items read before stand.
    method ReadListed(changes: seq<Change>) returns (items: seq<Item>, ok: bool)
      requires Valid() && InLog(log, changes)
      modifies this
      ensures Valid() && Evolves(old(T()), T())
      ensures ItemsSound(T(), items) && Changes(items) <= changes
      ensures ok ==> Changes(items) == changes
    {
      items, ok := [], true;
      while |items| < |changes|
        invariant Valid() && Evolves(old(T()), T())
        invariant ReadsListing(T(), changes, items)
        decreases |changes| - |items|
      {
        ghost var before := T();
        items, ok := ReadNext(changes, items);
        EvolvesTransitive(old(T()), before, T());
        if !ok {
          return;
        }
      }
    }

    method HandleListRunChanges(after: int, since: Option<int>, limit: int) returns (r: Result<DeltaResponse, DBError>)
      requires Valid()
      modifies this
      ensures Valid() && Evolves(old(T()), T())
      ensures r.Ok? ==> ItemsSound(T(), r.value.items) && r.value.nextSeq == LastSeq(after, r.value.items)
      ensures r.Ok? ==> |r.value.items| <= EffectiveLimit(limit)
      ensures r.Ok? && (after != 0 || since.None?) ==>
                && Delivers(T(), after, r.value.items)
                && (|r.value.items| == EffectiveLimit(limit) || After(old(log), after) <= Changes(r.value.items))
    {
      OtherWriters();
      ghost var listedAt := T();
      var fails: bool := *;
      if fails {
        return Err(DBError);
      }
      var changes := ListRunChanges(log, after, since, limit);
      ListingInLog(log, after, since, limit);
      ListingIsGapFreeIff(after, since, limit);
      AfterGrows(old(log), log, after);
      var items, ok := ReadListed(changes);
      EvolvesTransitive(old(T()), listedAt, T());
      AfterGrows(listedAt.log, log, after);
      if !ok {
        return Err(DBError);
      }
      return Ok(DeltaResponse(items, LastSeq(after, items)));
    }

    // One replay of the stream: at most 200 entries beyond the last one sent.  When it fails part way, what was
    // written before stays sent.
    method WriteChanges(ghost start: int, afterSeq: int, sent: seq<Item>) returns (afterSeq': int, sent': seq<Item>, ok: bool)
      requires Valid()
      requires Delivers(T(), start, sent) && afterSeq == LastSeq(start, sent)
      modifies this
      ensures Valid() && Evolves(old(T()), T())
      ensures Delivers(T(), start, sent') && afterSeq' == LastSeq(start, sent') && sent <= sent'
      ensures ok ==> Covers(old(log), start, sent', |sent| + 200)
    {
      ghost var t0 := T();
      OtherWriters();
      ghost var t1 := T();
      DeliversPersists(t0, t1, start, sent);
      var fails: bool := *;
      if fails {
        return afterSeq, sent, false;
      }
      var changes := ListRunChanges(log, afterSeq, None, 200);
      ListingInLog(log, afterSeq, None, 200);
      DeliversFeeds(t1, start, sent);
      ListMoreKeepsFeed(t1, start, afterSeq, sent);
      ListMoreReaches(t0, t1, start, sent);
      var items, readOk := ReadListed(changes);
      EvolvesTransitive(t0, t1, T());
      DeliversMore(t1, T(), start, sent, changes, items);
      sent' := sent + items;
      afterSeq' := LastSeq(afterSeq, items);
      var disconnected: bool := *;
      ok := readOk && !disconnected;
    }

    // A whole connection: an initial replay, then polls, heartbeats and silence in any order until the client goes
    // away or something fails. Each replay that succeeds sends a full batch more, unless everything is sent that was
    // in the log when the connection began.
    method HandleRunChangeStream(query: int, lastEventID: Option<int>) returns (sent: seq<Item>, ghost replays: nat)
      requires Valid()
      modifies this
      ensures Valid() && Evolves(old(T()), T())
      ensures query != 0 ==> Delivers(T(), query, sent) && Covers(old(log), query, sent, 200 * replays)
      ensures query == 0 && lastEventID.None? ==> Delivers(T(), 0, sent) && Covers(old(log), 0, sent, 200 * replays)
      ensures query == 0 && lastEventID.Some? ==>
                Delivers(T(), lastEventID.value, sent) && Covers(old(log), lastEventID.value, sent, 200 * replays)
    {
      replays := 0;
      var start := ResumeCursor(query, lastEventID);
      var afterSeq := start;
      ghost var t0 := T();
      var started;
      afterSeq, sent, started := WriteChanges(start, afterSeq, []);
      if !started {
        return;
      }
      replays := 1;
      var ticks: nat := *;
      while ticks > 0
        invariant Valid() && Evolves(t0, T())
        invariant Delivers(T(), start, sent) && afterSeq == LastSeq(start, sent)
        invariant Covers(t0.log, start, sent, 200 * replays)
      {
        var polls: bool := *;
        if polls {
          ghost var before, sentBefore := T(), sent;
          var ok;
          afterSeq, sent, ok := WriteChanges(start, afterSeq, sent);
          EvolvesTransitive(t0, before, T());
          CoversGrows(t0.log, before.log, start, sentBefore, sent, 200 * replays);
          if !ok {
            return;
          }
          replays := replays + 1;
        }
        ticks := ticks - 1;
      }
    }
  }

  lemma CoversGrows(log: seq<Change>, log': seq<Change>, start: int, sent: seq<Item>, sent': seq<Item>, count: nat)
    requires Covers(log, start, sent, count) && sent <= sent' && log <= log'
    ensures Covers(log, start, sent', count)
    ensures Covers(log', start, sent', |sent| + 200) ==> Covers(log, start, sent', count + 200)
  {
    assert sent' == sent + sent'[|sent|..];
    ChangesAppend(sent, sent'[|sent|..]);
    AfterGrows(log, log', start);
  }

  lemma DeliversFeeds(t: Table, after: int, items: seq<Item>)
    requires Delivers(t, after, items)
    ensures FeedInv(t, after, LastSeq(after, items), [], items)
  {
    assert Changes(items) + [] == Changes(items);
  }

  ghost predicate InLog(log: seq<Change>, changes: seq<Change>) {
    forall i :: 0 <= i < |changes| ==> changes[i] in log
  }

  lemma {:induction false} AfterInLog(log: seq<Change>, after: int)
    ensures InLog(log, After(log, after))
  {
    if log != [] {
      AfterInLog(log[1..], after);
    }
  }

  lemma {:induction false} SinceInLog(log: seq<Change>, changes: seq<Change>, since: Option<int>)
    requires InLog(log, changes)
    ensures InLog(log, Since(changes, since))
  {
    if since.Some? && changes != [] {
      SinceInLog(log, changes[1..], since);
    }
  }

  lemma ListingInLog(log: seq<Change>, after: int, since: Option<int>, limit: int)
    ensures InLog(log, ListRunChanges(log, after, since, limit))
  {
    AfterInLog(log, after);
    SinceInLog(log, After(log, after), if after == 0 then since else None);
  }

  lemma ItemsSoundPersist(t: Table, t': Table, changes: seq<Change>, items: seq<Item>)
    requires ValidTable(t) && Evolves(t, t')
    requires InLog(t.log, changes) && Changes(items) <= changes && ItemsSound(t, items)
    ensures ItemsSound(t', items) && InLog(t'.log, changes)
  {
    forall i | 0 <= i < |items|
      ensures ItemSound(t', items[i])
    {
      assert Changes(items)[i] == changes[i];
      var k :| 0 <= k < |t.log| && t.log[k] == changes[i];
      ItemSoundPersists(t, t', items[i]);
    }
    forall i | 0 <= i < |changes|
      ensures changes[i] in t'.log
    {
      var k :| 0 <= k < |t.log| && t.log[k] == changes[i];
      assert t'.log[k] == changes[i];
    }
  }

  // The items are a sound reading of the first entries of a listing.
  ghost predicate ReadsListing(t: Table, changes: seq<Change>, items: seq<Item>) {
    InLog(t.log, changes) && ItemsSound(t, items) && Changes(items) <= changes
  }

  lemma OneMore(items: seq<Item>, item: Item, changes: seq<Change>)
    requires |items| < |changes| && item.change == changes[|items|] && Changes(items) <= changes
    ensures Changes(items + [item]) <= changes
  {
    ChangesAppend(items, [item]);
    assert Changes([item]) == [changes[|items|]];
  }

  lemma DeliversPersists(t: Table, t': Table, after: int, items: seq<Item>)
    requires ValidTable(t) && Evolves(t, t') && Delivers(t, after, items)
    ensures Delivers(t', after, items)
  {
    AfterGrows(t.log, t'.log, after);
    AfterInLog(t.log, after);
    ItemsSoundPersist(t, t', After(t.log, after), items);
  }

  lemma DeliversMore(t: Table, t': Table, start: int, sent: seq<Item>, changes: seq<Change>, items: seq<Item>)
    requires ValidTable(t) && Evolves(t, t') && Delivers(t, start, sent)
    requires Changes(sent) + changes <= After(t.log, start)
    requires ItemsSound(t', items) && Changes(items) <= changes
    ensures Delivers(t', start, sent + items)
    ensures Changes(sent + items) == Changes(sent) + Changes(items)
  {
    DeliversPersists(t, t', start, sent);
    ChangesAppend(sent, items);
    AfterGrows(t.log, t'.log, start);
    assert Changes(sent) + Changes(items) <= Changes(sent) + changes;
  }

  // A listing from the last item sent either is full or reaches the end of the log.
  lemma ListMoreReaches(t: Table, t': Table, start: int, sent: seq<Item>)
    requires ValidTable(t') && t.log <= t'.log && Delivers(t', start, sent)
    ensures var listed := ListRunChanges(t'.log, LastSeq(start, sent), None, 200);
            |listed| == 200 || After(t.log, start) <= Changes(sent) + listed
  {
    var n, ahead := |sent|, After(t'.log, start);
    AfterGrows(t.log, t'.log, start);
    if n > 0 {
      assert Changes(sent)[n - 1] == ahead[n - 1];
      AfterContinues(t'.log, start, n);
    }
    assert Changes(sent) == ahead[..n];
    assert After(t'.log, LastSeq(start, sent)) == ahead[n..];
    ListingIsComplete(t'.log, LastSeq(start, sent), None, 200);
    assert ahead[..n] + ahead[n..] == ahead;
  }

  // ----- Reconnecting -----

  // One connection as the client saw it: where it resumed, and how many events it took in before the line broke.
  datatype Connection = Connection(resume: int, received: nat)

  // The largest event id a client holds after some connections; each delivers a prefix of what lies beyond its cursor.
  function Received(log: seq<Change>, conn: Connection): seq<Change> {
    Take(After(log, conn.resume), conn.received)
  }

  function HighWater(log: seq<Change>, start: int, conns: seq<Connection>): int {
    if conns == [] then start
    else
      var before := HighWater(log, start, conns[..|conns| - 1]);
      HighAfter(before, Received(log, conns[|conns| - 1]))
  }

  // No connection resumes beyond what the client already holds.
  ghost predicate ResumesBehind(log: seq<Change>, start: int, conns: seq<Connection>) {
    forall i :: 0 <= i < |conns| ==> conns[i].resume <= HighWater(log, start, conns[..i])
  }

  // The event filter of the web client: an event is applied only when it moves the cursor forward.
  function Accept(cursor: int, events: seq<Change>): (seq<Change>, int)
    decreases |events|
  {
    if events == [] then ([], cursor)
    else if events[0].seqNo <= cursor then Accept(cursor, events[1..])
    else
      var (rest, last) := Accept(events[0].seqNo, events[1..]);
      ([events[0]] + rest, last)
  }

  function Accepted(log: seq<Change>, start: int, conns: seq<Connection>): seq<Change> {
    if conns == [] then []
    else
      var before := conns[..|conns| - 1];
      Accepted(log, start, before) + Accept(HighWater(log, start, before), Received(log, conns[|conns| - 1])).0
  }

  // Among entries in log order, those accepted are the ones beyond the cursor.
  lemma {:induction false} AcceptKeepsBeyond(cursor: int, events: seq<Change>)
    requires forall i, j :: 0 <= i < j < |events| ==> events[i].seqNo < events[j].seqNo
    ensures Accept(cursor, events).0 == After(events, cursor)
    decreases |events|
  {
    if events != [] {
      assert events == [events[0]] + events[1..];
      AfterSplits([events[0]], events[1..], cursor);
      assert [events[0]][1..] == [];
      assert After([events[0]], cursor) == if events[0].seqNo > cursor then [events[0]] else [];
      if events[0].seqNo <= cursor {
        AcceptKeepsBeyond(cursor, events[1..]);
      } else {
        AcceptKeepsBeyond(events[0].seqNo, events[1..]);
        AllBeyond(events[1..], cursor);
        AllBeyond(events[1..], events[0].seqNo);
      }
    }
  }

  // Entries up to a high-water mark; the rest of the log lies beyond it.
  ghost function UpTo(log: seq<Change>, start: int, high: int): seq<Change> {
    if |After(log, high)| <= |After(log, start)| then After(log, start)[..|After(log, start)| - |After(log, high)|] else []
  }

  lemma SuffixOrder(log: seq<Change>, a: int, b: int, ka: nat, kb: nat)
    requires a <= b && CutAt(log, a, ka) && CutAt(log, b, kb)
    ensures ka <= kb
  {
    assert kb < |log| ==> log[kb].seqNo > a;
  }

  function HighAfter(high: int, received: seq<Change>): int {
    if received != [] && received[|received| - 1].seqNo > high then received[|received| - 1].seqNo else high
  }

  // What a delivery adds beyond the mark takes the accepted entries from the old mark to the new one.
  lemma OneConnectionExtends(log: seq<Change>, start: int, high: int, conn: Connection)
    requires Increasing(log) && start <= high && conn.resume <= high
    ensures var received := Received(log, conn);
            UpTo(log, start, high) + Accept(high, received).0 == UpTo(log, start, HighAfter(high, received))
  {
    var received := Received(log, conn);
    var kr := AfterIsSuffix(log, conn.resume);
    var kh := AfterIsSuffix(log, high);
    SuffixOrder(log, conn.resume, high, kr, kh);
    var n := kr + |received|;
    assert received == log[kr..n];
    AcceptKeepsBeyond(high, received);
    if n <= kh {
      NoneBeyond(received, high);
      assert received != [] ==> received[|received| - 1] == log[n - 1];
    } else {
      assert received[|received| - 1] == log[n - 1];
      BeyondOfSlice(log, high, kr, kh, n);
      UpToEnd(log, start, high, kh, n);
    }
  }

  lemma BeyondOfSlice(log: seq<Change>, high: int, kr: nat, kh: nat, n: nat)
    requires kr <= kh <= n <= |log| && CutAt(log, high, kh)
    ensures After(log[kr..n], high) == log[kh..n]
  {
    SliceJoin(log, kr, kh, n);
    AfterSplits(log[kr..kh], log[kh..n], high);
    NoneBeyond(log[kr..kh], high);
    AllBeyond(log[kh..n], high);
  }

  // The suffix beyond a cursor is unique.
  lemma SuffixAt(log: seq<Change>, cursor: int, k: nat)
    requires Increasing(log) && CutAt(log, cursor, k)
    ensures After(log, cursor) == log[k..]
  {
    var k' := AfterIsSuffix(log, cursor);
    SuffixOrder(log, cursor, cursor, k, k');
    SuffixOrder(log, cursor, cursor, k', k);
  }

  lemma UpToIsSlice(log: seq<Change>, start: int, high: int, ks: nat, kh: nat)
    requires ks <= kh <= |log|
    requires After(log, start) == log[ks..] && After(log, high) == log[kh..]
    ensures UpTo(log, start, high) == log[ks..kh]
  {
  }

  lemma UpToEnd(log: seq<Change>, start: int, high: int, kh: nat, n: nat)
    requires Increasing(log) && start <= high && kh < n <= |log| && CutAt(log, high, kh)
    ensures UpTo(log, start, log[n - 1].seqNo) == UpTo(log, start, high) + log[kh..n]
  {
    var ks := AfterIsSuffix(log, start);
    SuffixOrder(log, start, high, ks, kh);
    SuffixAt(log, high, kh);
    SuffixAt(log, log[n - 1].seqNo, n);
    UpToIsSlice(log, start, high, ks, kh);
    UpToIsSlice(log, start, log[n - 1].seqNo, ks, n);
    SliceJoin(log, ks, kh, n);
  }

  lemma SliceJoin<X>(s: seq<X>, a: nat, b: nat, c: nat)
    requires a <= b <= c <= |s|
    ensures s[a..b] + s[b..c] == s[a..c]
  {
  }

  // Over any number of connections that never resume ahead of the client, what the client applies is exactly the
  // log from its first cursor to its last, in order, each entry once.
  lemma {:induction false} ReconnectsDeliverExactlyOnce(log: seq<Change>, start: int, conns: seq<Connection>)
    requires Increasing(log) && ResumesBehind(log, start, conns)
    ensures start <= HighWater(log, start, conns)
    ensures Accepted(log, start, conns) == UpTo(log, start, HighWater(log, start, conns))
    ensures Accepted(log, start, conns) <= After(log, start)
    ensures forall i :: 0 <= i < |log| && start < log[i].seqNo <= HighWater(log, start, conns) ==>
                          log[i] in Accepted(log, start, conns)
  {
    if conns != [] {
      var n := |conns| - 1;
      forall i | 0 <= i < n
        ensures conns[..n][i].resume <= HighWater(log, start, conns[..n][..i])
      {
        assert conns[..n][..i] == conns[..i];
      }
      ReconnectsDeliverExactlyOnce(log, start, conns[..n]);
      OneConnectionExtends(log, start, HighWater(log, start, conns[..n]), conns[n]);
    }
    UpToCovers(log, start, HighWater(log, start, conns));
  }

  lemma UpToCovers(log: seq<Change>, start: int, high: int)
    requires Increasing(log) && start <= high
    ensures UpTo(log, start, high) <= After(log, start)
    ensures forall i :: 0 <= i < |log| && start < log[i].seqNo <= high ==> log[i] in UpTo(log, start, high)
  {
    var ks := AfterIsSuffix(log, start);
    var kh := AfterIsSuffix(log, high);
    SuffixOrder(log, start, high, ks, kh);
    UpToIsSlice(log, start, high, ks, kh);
    forall i | 0 <= i < |log| && start < log[i].seqNo <= high
      ensures log[i] in UpTo(log, start, high)
    {
      assert log[ks..kh][i - ks] == log[i];
    }
  }
}
