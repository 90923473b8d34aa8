/**
 The local cache of a run's event log, from internal/eventcache/eventcache.go: a file of lines, written whole, into
 which windows of an append-only remote log are merged by line number.
 */
module EventCache {
  import opened Outcomes
  import opened Bytes
  import opened Seqs

  type Content = seq<Byte>

  // ----- The file: lines written and read -----

  predicate NoLF(s: seq<Byte>) {
    forall i :: 0 <= i < |s| ==> s[i] != LF
  }

  function FileOf(lines: seq<Content>): seq<Byte> {
    if lines == [] then [] else lines[0] + [LF] + FileOf(lines[1..])
  }

  // Where the first line ends.
  function LFAt(s: seq<Byte>): (i: nat)
    ensures i <= |s| && forall j :: 0 <= j < i ==> s[j] != LF
    ensures i < |s| ==> s[i] == LF
  {
    if s == [] || s[0] == LF then 0 else 1 + LFAt(s[1..])
  }

  // One trailing carriage return goes with the line feed.
  function DropCR(line: Content): Content {
    if line != [] && line[|line| - 1] == CR then line[..|line| - 1] else line
  }

  // bufio.ScanLines over a whole file.
  function ScanLines(file: seq<Byte>): seq<Content>
    decreases |file|
  {
    if file == [] then []
    else
      var i := LFAt(file);
      if i < |file| then [DropCR(file[..i])] + ScanLines(file[i + 1..]) else [DropCR(file)]
  }

  method ReadContents(file: seq<Byte>) returns (lines: seq<Content>)
    ensures lines == ScanLines(file)
  {
    lines := [];
    var rest := file;
    while rest != []
      invariant lines + ScanLines(rest) == ScanLines(file)
      decreases |rest|
    {
      var i := LFAt(rest);
      if i == |rest| {
        return lines + [DropCR(rest)];
      }
      Assoc(lines, [DropCR(rest[..i])], ScanLines(rest[i + 1..]));
      lines := lines + [DropCR(rest[..i])];
      rest := rest[i + 1..];
    }
    assert lines + [] == lines;
  }

  method WriteContents(lines: seq<Content>) returns (file: seq<Byte>)
    ensures file == FileOf(lines)
  {
    file := [];
    assert lines[0..] == lines && [] + FileOf(lines) == FileOf(lines);
    for i := 0 to |lines|
      invariant file + FileOf(lines[i..]) == FileOf(lines)
    {
      assert lines[i..][1..] == lines[i + 1..];
      Assoc(file, lines[i] + [LF], FileOf(lines[i + 1..]));
      Assoc(file, lines[i], [LF]);
      file := file + lines[i];
      file := file + [LF];
    }
    assert file + [] == file;
  }

  lemma LFAtIs(s: seq<Byte>, i: nat)
    requires i < |s| && s[i] == LF && forall j :: 0 <= j < i ==> s[j] != LF
    ensures LFAt(s) == i
  {
    var k := LFAt(s);
    assert k < |s| ==> s[k] == LF;
  }

  lemma ScanOne(line: Content, rest: seq<Byte>)
    requires NoLF(line)
    ensures ScanLines(line + [LF] + rest) == [DropCR(line)] + ScanLines(rest)
  {
    var file := line + [LF] + rest;
    assert file[..|line|] == line && file[|line| + 1..] == rest;
    assert forall j :: 0 <= j < |line| ==> file[j] == line[j];
    LFAtIs(file, |line|);
  }

  // How many line feeds there are.
  function Feeds(s: seq<Byte>): nat {
    if s == [] then 0 else (if s[0] == LF then 1 else 0) + Feeds(s[1..])
  }

  lemma {:induction false} FeedsAppend(a: seq<Byte>, b: seq<Byte>)
    ensures Feeds(a + b) == Feeds(a) + Feeds(b)
  {
    if a == [] {
      assert a + b == b;
    } else {
      assert (a + b)[1..] == a[1..] + b;
      FeedsAppend(a[1..], b);
    }
  }

  lemma {:induction false} NoFeeds(s: seq<Byte>)
    ensures Feeds(s) == 0 <==> NoLF(s)
  {
    if s != [] {
      NoFeeds(s[1..]);
      assert s == [s[0]] + s[1..];
      assert forall i :: 1 <= i < |s| ==> s[i] == s[1..][i - 1];
    }
  }

  lemma OneFeed()
    ensures Feeds([LF]) == 1
  {
    assert [LF][1..] == [];
  }

  lemma {:induction false} FeedsOfFile(lines: seq<Content>)
    ensures Feeds(FileOf(lines)) >= |lines|
    ensures Feeds(FileOf(lines)) == |lines| <==> forall i :: 0 <= i < |lines| ==> NoLF(lines[i])
  {
    if lines != [] {
      FeedsOfFile(lines[1..]);
      FeedsAppend(lines[0] + [LF], FileOf(lines[1..]));
      FeedsAppend(lines[0], [LF]);
      OneFeed();
      NoFeeds(lines[0]);
      assert forall i :: 1 <= i < |lines| ==> lines[i] == lines[1..][i - 1];
    }
  }

  // A file that ends in a line feed has as many lines as line feeds.
  lemma {:induction false} LinesAreFeeds(file: seq<Byte>)
    requires file == [] || file[|file| - 1] == LF
    ensures |ScanLines(file)| == Feeds(file)
    decreases |file|
  {
    if file != [] {
      var i := LFAt(file);
      assert i < |file|;
      LinesAreFeeds(file[i + 1..]);
      SplitAt(file, i);
      FeedsAppend(file[..i], [LF] + file[i + 1..]);
      FeedsAppend([LF], file[i + 1..]);
      OneFeed();
      NoFeeds(file[..i]);
    }
  }

  lemma {:induction false} FileEndsInFeed(lines: seq<Content>)
    ensures lines != [] ==> FileOf(lines) != [] && FileOf(lines)[|FileOf(lines)| - 1] == LF
  {
    if lines != [] {
      FileEndsInFeed(lines[1..]);
    }
  }

  predicate Plain(line: Content) {
    NoLF(line) && (line == [] || line[|line| - 1] != CR)
  }

  ghost predicate AllPlain(lines: seq<Content>) {
    forall i :: 0 <= i < |lines| ==> Plain(lines[i])
  }

  function Dropped(lines: seq<Content>): (out: seq<Content>)
    ensures |out| == |lines| && forall i :: 0 <= i < |lines| ==> out[i] == DropCR(lines[i])
  {
    if lines == [] then [] else [DropCR(lines[0])] + Dropped(lines[1..])
  }

  ghost predicate NoneHoldsLF(lines: seq<Content>) {
    forall i :: 0 <= i < |lines| ==> NoLF(lines[i])
  }

  lemma {:induction false} ScanFile(lines: seq<Content>)
    requires NoneHoldsLF(lines)
    ensures ScanLines(FileOf(lines)) == Dropped(lines)
  {
    if lines != [] {
      ScanFile(lines[1..]);
      ScanOne(lines[0], FileOf(lines[1..]));
    }
  }

  lemma DroppedIff(lines: seq<Content>)
    requires NoneHoldsLF(lines)
    ensures Dropped(lines) == lines <==> AllPlain(lines)
  {
    forall i | 0 <= i < |lines|
      ensures DropCR(lines[i]) == lines[i] <==> Plain(lines[i])
    {
      assert DropCR(lines[i]) == lines[i] || |DropCR(lines[i])| < |lines[i]|;
    }
  }

  // Reading gives back the lines written exactly when none holds a line feed or ends in a carriage return.
  lemma ReadsBackIff(lines: seq<Content>)
    ensures ScanLines(FileOf(lines)) == lines <==> AllPlain(lines)
  {
    if NoneHoldsLF(lines) {
      ScanFile(lines);
      DroppedIff(lines);
    } else {
      FileEndsInFeed(lines);
      LinesAreFeeds(FileOf(lines));
      FeedsOfFile(lines);
    }
  }

  // ----- Merging a window -----

  datatype Line = Line(no: int, content: Content)

  // strings.TrimRight of carriage returns and line feeds
  function TrimEnd(s: Content): Content {
    if s != [] && IsBreak(s[|s| - 1]) then TrimEnd(s[..|s| - 1]) else s
  }

  function Trimmed(lines: seq<Line>): (out: seq<Content>)
    ensures |out| == |lines| && forall i :: 0 <= i < |lines| ==> out[i] == TrimEnd(lines[i].content)
  {
    seq(|lines|, i requires 0 <= i < |lines| => TrimEnd(lines[i].content))
  }

  function Merge(existing: seq<Content>, firstNo: int, incoming: seq<Content>): seq<Content> {
    var first := if firstNo <= 0 then 1 else firstNo;
    if existing == [] || first > |existing| + 1 then incoming
    else existing[..first - 1] + incoming + Behind(existing, first - 1 + |incoming|)
  }

  function Behind(lines: seq<Content>, next: nat): seq<Content> {
    if next < |lines| then lines[next..] else []
  }

  function Prefix(log: seq<Content>, n: nat): seq<Content>
    requires n <= |log|
  {
    log[..n]
  }

  // A window that starts no later than the line behind the cached ones extends the prefix to its own end, or leaves it.
  lemma WindowExtendsPrefix(log: seq<Content>, cached: nat, first: nat, end: nat)
    requires cached <= |log| && 1 <= first <= cached + 1 && first - 1 < end <= |log|
    ensures Merge(log[..cached], first, log[first - 1..end]) == if end < cached then log[..cached] else log[..end]
  {
    var start := first - 1;
    assert log[..cached][..start] == log[..start];
    if end < cached {
      assert log[..cached][end..] == log[end..cached];
      assert log[..start] + log[start..end] + log[end..cached] == log[..cached];
    } else {
      assert log[..start] + log[start..end] + [] == log[..end];
    }
  }

  // A later window replaces everything: what is cached then is a prefix only if the log repeats itself there.
  lemma PrefixSurvivesIff(log: seq<Content>, cached: nat, first: nat, end: nat)
    requires cached <= |log| && 1 <= first && first - 1 < end <= |log|
    ensures var merged := Merge(log[..cached], first, log[first - 1..end]);
            (|merged| <= |log| && merged == log[..|merged|]) <==>
            (first <= cached + 1 || log[first - 1..end] == log[..end - first + 1])
  {
    if first <= cached + 1 {
      WindowExtendsPrefix(log, cached, first, end);
    } else {
      assert Merge(log[..cached], first, log[first - 1..end]) == log[first - 1..end];
    }
  }

  // What a caller can check beforehand: the window keeps the prefix whatever the log holds exactly when it starts no
  // later than the line behind the cached ones.
  lemma WindowKeepsAnyLogIff(cached: nat, first: nat, end: nat)
    requires 1 <= first <= end
    ensures (forall log: seq<Content> :: cached <= |log| && end <= |log| ==> KeepsPrefix(log, cached, first, end)) <==> first <= cached + 1
  {
    if first <= cached + 1 {
      forall log: seq<Content> | cached <= |log| && end <= |log|
        ensures KeepsPrefix(log, cached, first, end)
      {
        PrefixSurvivesIff(log, cached, first, end);
      }
    } else {
      var log: seq<Content> := seq(if cached < end then end else cached, i => if i == 0 then [] else [LF]);
      PrefixSurvivesIff(log, cached, first, end);
      assert log[first - 1..end][0] != log[..end - first + 1][0];
      assert !KeepsPrefix(log, cached, first, end);
    }
  }

  // After a window of the log is merged, what is cached is still a prefix of the log.
  ghost predicate KeepsPrefix(log: seq<Content>, cached: nat, first: nat, end: nat)
    requires cached <= |log| && 1 <= first <= end <= |log|
  {
    var merged := Merge(log[..cached], first, log[first - 1..end]);
    |merged| <= |log| && merged == log[..|merged|]
  }

  // Writing the same window twice is writing it once, unless a late window replaced the cache and is long enough to
  // be merged into itself the second time.
  lemma RepeatIsNoOpIff(existing: seq<Content>, first: nat, incoming: seq<Content>)
    requires first >= 1 && incoming != []
    ensures Merge(Merge(existing, first, incoming), first, incoming) == Merge(existing, first, incoming) <==>
            (existing != [] && first <= |existing| + 1) || first == 1 || first > |incoming| + 1
  {
    var once, start := Merge(existing, first, incoming), first - 1;
    if existing != [] && first <= |existing| + 1 {
      assert once[..start] == existing[..start];
      assert Behind(once, start + |incoming|) == Behind(existing, start + |incoming|);
    } else if first <= |incoming| + 1 {
      assert Merge(once, first, incoming) == incoming[..start] + incoming + [];
      assert first == 1 ==> incoming[..start] + incoming + [] == incoming;
      assert first > 1 ==> |incoming[..start] + incoming + []| > |incoming|;
    }
  }

  // A line and what is stored of it: the line without the carriage returns and line feeds at its end, and without nothing
  // else.
  ghost predicate StoredAs(line: Content, stored: Content) {
    && |stored| <= |line| && line[..|stored|] == stored
    && (forall i :: |stored| <= i < |line| ==> line[i] == 10 || line[i] == 13)
    && (stored != [] ==> stored[|stored| - 1] != 10 && stored[|stored| - 1] != 13)
  }

  lemma {:induction false} TrimEndStores(line: Content)
    ensures StoredAs(line, TrimEnd(line))
    ensures line == [] || (line[|line| - 1] != 10 && line[|line| - 1] != 13) ==> TrimEnd(line) == line
  {
    if line != [] && IsBreak(line[|line| - 1]) {
      var n := |line| - 1;
      TrimEndStores(line[..n]);
      var out := TrimEnd(line[..n]);
      forall i | |out| <= i < |line|
        ensures line[i] == 10 || line[i] == 13
      {
        assert i < n ==> line[i] == line[..n][i];
      }
    }
  }

  // There is one text to store of a line.
  lemma StoredOnce(line: Content, a: Content, b: Content)
    requires StoredAs(line, a) && StoredAs(line, b)
    ensures a == b
  {
    assert a != [] ==> line[|a| - 1] == a[|a| - 1];
    assert b != [] ==> line[|b| - 1] == b[|b| - 1];
    assert |a| == |b|;
  }

  // Line by line, what a merged cache holds: the window where it reaches, the earlier lines elsewhere.
  lemma MergedLine(existing: seq<Content>, firstNo: int, incoming: seq<Content>, n: nat)
    requires existing != [] && (if firstNo <= 0 then 1 else firstNo) <= |existing| + 1
    requires 1 <= n <= |Merge(existing, firstNo, incoming)|
    ensures var first := if firstNo <= 0 then 1 else firstNo;
            && |Merge(existing, firstNo, incoming)| == (if |existing| < first - 1 + |incoming| then first - 1 + |incoming| else |existing|)
            && Merge(existing, firstNo, incoming)[n - 1] == if first <= n < first + |incoming| then incoming[n - first] else existing[n - 1]
  {
    var start := (if firstNo <= 0 then 1 else firstNo) - 1;
    var behind := Behind(existing, start + |incoming|);
    ThreeParts(existing[..start], incoming, behind, n - 1);
    assert start + |incoming| < |existing| && n > start + |incoming| ==> behind[n - 1 - start - |incoming|] == existing[n - 1];
  }

  lemma ThreeParts<X>(a: seq<X>, b: seq<X>, c: seq<X>, i: nat)
    requires i < |a| + |b| + |c|
    ensures (a + b + c)[i] == if i < |a| then a[i] else if i < |a| + |b| then b[i - |a|] else c[i - |a| - |b|]
  {
  }

  // A window that cannot be merged is all there is.
  lemma ReplacedLines(existing: seq<Content>, firstNo: int, incoming: seq<Content>)
    requires existing == [] || (if firstNo <= 0 then 1 else firstNo) > |existing| + 1
    ensures Merge(existing, firstNo, incoming) == incoming
  {
  }

  // What is read back of trimmed lines is what is stored of each, when they hold no line feed inside.
  lemma StoredLinesReadBack(lines: seq<Line>)
    requires forall i :: 0 <= i < |lines| ==> NoLF(TrimEnd(lines[i].content))
    ensures var back := ScanLines(FileOf(Trimmed(lines)));
            |back| == |lines| && forall i :: 0 <= i < |lines| ==> StoredAs(lines[i].content, back[i])
  {
    forall i | 0 <= i < |lines|
      ensures StoredAs(lines[i].content, Trimmed(lines)[i]) && Plain(Trimmed(lines)[i])
    {
      TrimEndStores(lines[i].content);
    }
    ReadsBackIff(Trimmed(lines));
  }

  lemma {:induction false} TrimEndIsPlain(s: Content)
    ensures TrimEnd(s) == [] || !IsBreak(TrimEnd(s)[|TrimEnd(s)| - 1])
  {
    if s != [] && IsBreak(s[|s| - 1]) {
      TrimEndIsPlain(s[..|s| - 1]);
    }
  }

  // ----- The cache -----

  class Cache {
    var file: Option<seq<Byte>>

    constructor ()
      ensures file == None
    {
      file := None;
    }

    // What reading the file gives; nothing when there is none.
    function Cached(): seq<Content>
      reads this
    {
      match file case None => [] case Some(bytes) => ScanLines(bytes)
    }

    // None when there is no file.
    method Read(lastN: int) returns (out: Option<seq<Line>>)
      ensures out.None? <==> file.None?
      ensures out.Some? ==>
                var all, lines := Cached(), out.value;
                && |lines| == (if 0 < lastN < |all| then lastN else |all|)
                && forall i :: 0 <= i < |lines| ==> lines[i] == Line(|all| - |lines| + i + 1, all[|all| - |lines| + i])
    {
      if file.None? {
        return None;
      }
      var lines := ReadContents(file.value);
      var firstNo := 1;
      if lastN > 0 && |lines| > lastN {
        firstNo := |lines| - lastN + 1;
        lines := lines[|lines| - lastN..];
      }
      var numbered: seq<Line> := [];
      for i := 0 to |lines|
        invariant |numbered| == i && forall j :: 0 <= j < i ==> numbered[j] == Line(firstNo + j, lines[j])
      {
        numbered := numbered + [Line(firstNo + i, lines[i])];
      }
      return Some(numbered);
    }

    method Write(lines: seq<Line>)
      modifies this
      ensures lines == [] ==> file == old(file)
      ensures lines != [] ==> file == Some(FileOf(Merge(old(Cached()), lines[0].no, Trimmed(lines))))
      ensures forall i :: 0 <= i < |lines| ==> StoredAs(lines[i].content, Trimmed(lines)[i])
    {
      if lines == [] {
        return;
      }
      var existing: seq<Content> := [];
      if file.Some? {
        existing := ReadContents(file.value);
      }
      var incoming := TrimAll(lines);
      var first := lines[0].no;
      if first <= 0 {
        first := 1;
      }
      var merged := MergeLines(existing, first, incoming);
      var bytes := WriteContents(merged);
      file := Some(bytes);
    }

    // Nothing of an older generation stays.
    method WriteSnapshot(lines: seq<Line>)
      modifies this
      ensures file == Some(FileOf(Trimmed(lines)))
      ensures forall i :: 0 <= i < |lines| ==> StoredAs(lines[i].content, Trimmed(lines)[i])
      ensures (forall i :: 0 <= i < |lines| ==> NoLF(TrimEnd(lines[i].content))) ==>
                |Cached()| == |lines| && forall i :: 0 <= i < |lines| ==> StoredAs(lines[i].content, Cached()[i])
    {
      var incoming := TrimAll(lines);
      var bytes := WriteContents(incoming);
      file := Some(bytes);
      if forall i :: 0 <= i < |lines| ==> NoLF(TrimEnd(lines[i].content)) {
        StoredLinesReadBack(lines);
      }
    }
  }

  method MergeLines(existing: seq<Content>, first: nat, incoming: seq<Content>) returns (merged: seq<Content>)
    requires first >= 1
    ensures merged == Merge(existing, first, incoming)
  {
    if |existing| == 0 || first > |existing| + 1 {
      return incoming;
    }
    var start := first - 1;
    merged := existing[..start];
    merged := merged + incoming;
    var next := start + |incoming|;
    if next < |existing| {
      merged := merged + existing[next..];
    } else {
      assert merged == merged + [];
    }
  }

  method TrimAll(lines: seq<Line>) returns (incoming: seq<Content>)
    ensures incoming == Trimmed(lines)
    ensures forall i :: 0 <= i < |lines| ==> StoredAs(lines[i].content, incoming[i])
  {
    incoming := [];
    for i := 0 to |lines|
      invariant |incoming| == i && forall j :: 0 <= j < i ==> incoming[j] == TrimEnd(lines[j].content) && StoredAs(lines[j].content, incoming[j])
    {
      TrimEndStores(lines[i].content);
      incoming := incoming + [TrimEnd(lines[i].content)];
    }
  }

  // ----- Following a log that only grows -----

  // The remote log as it would be cached, and the cache file.
  datatype World = World(log: seq<Content>, file: Option<seq<Byte>>)

  datatype Event =
    | Grow(content: Content)
    | Observe(first: nat, end: nat)
    | Snapshot

  function CachedIn(w: World): seq<Content> {
    match w.file case None => [] case Some(bytes) => ScanLines(bytes)
  }

  function WindowOf(log: seq<Content>, first: nat, end: nat): seq<Line>
    requires 1 <= first <= end <= |log|
  {
    seq(end - first + 1, i requires 0 <= i < end - first + 1 => Line(first + i, log[first - 1 + i]))
  }

  // A window holds the lines of the log from its first to its last, under their own numbers.
  lemma WindowMeans(log: seq<Content>, first: nat, end: nat)
    requires 1 <= first <= end <= |log|
    ensures var window := WindowOf(log, first, end);
            && |window| == end - first + 1
            && forall i :: 0 <= i < |window| ==> window[i] == Line(first + i, log[first + i - 1])
  {
  }

  function TrimmedLog(log: seq<Content>): (out: seq<Content>)
    ensures |out| == |log| && forall i :: 0 <= i < |log| ==> out[i] == TrimEnd(log[i])
  {
    seq(|log|, i requires 0 <= i < |log| => TrimEnd(log[i]))
  }

  // A window is contiguous, comes from the log as it is now, and starts no later than the line behind the cached ones.
  predicate CanHappen(w: World, e: Event) {
    match e
    case Grow(content) => NoLF(TrimEnd(content))
    case Observe(first, end) => 1 <= first <= end <= |w.log| && first <= |CachedIn(w)| + 1
    case Snapshot => true
  }

  function Step(w: World, e: Event): World
    requires CanHappen(w, e)
  {
    match e
    case Grow(content) => w.(log := w.log + [content])
    case Observe(first, end) =>
      w.(file := Some(FileOf(Merge(CachedIn(w), first, Trimmed(WindowOf(w.log, first, end))))))
    case Snapshot => w.(file := Some(FileOf(TrimmedLog(w.log))))
  }

  predicate CanRun(w: World, events: seq<Event>)
    decreases |events|
  {
    events == [] || (CanHappen(w, events[0]) && CanRun(Step(w, events[0]), events[1..]))
  }

  function Run(w: World, events: seq<Event>): World
    requires CanRun(w, events)
    decreases |events|
  {
    if events == [] then w else Run(Step(w, events[0]), events[1..])
  }

  ghost predicate Inv(w: World) {
    && AllPlain(TrimmedLog(w.log))
    && |CachedIn(w)| <= |w.log|
    && CachedIn(w) == TrimmedLog(w.log)[..|CachedIn(w)|]
  }

  // How many lines are cached: what any observation reached, at the most.
  function Reached(e: Event, w: World): nat {
    match e
    case Grow(_) => 0
    case Observe(_, end) => end
    case Snapshot => |w.log|
  }

  lemma PrefixReadsBack(lines: seq<Content>, n: nat)
    requires AllPlain(lines) && n <= |lines|
    ensures ScanLines(FileOf(lines[..n])) == lines[..n]
  {
    ReadsBackIff(lines[..n]);
  }

  // What observing a window leaves in the file.
  lemma ObserveWrites(w: World, first: nat, end: nat, reach: nat)
    requires Inv(w) && CanHappen(w, Observe(first, end)) && reach == if end < |CachedIn(w)| then |CachedIn(w)| else end
    ensures var once := Step(w, Observe(first, end));
            && once.file == Some(FileOf(TrimmedLog(w.log)[..reach])) && once.log == w.log
            && CachedIn(once) == TrimmedLog(w.log)[..reach]
  {
    var log := TrimmedLog(w.log);
    assert Trimmed(WindowOf(w.log, first, end)) == log[first - 1..end];
    WindowExtendsPrefix(log, |CachedIn(w)|, first, end);
    PrefixReadsBack(log, reach);
  }

  lemma StepKeepsInv(w: World, e: Event)
    requires Inv(w) && CanHappen(w, e)
    ensures Inv(Step(w, e))
    ensures |CachedIn(Step(w, e))| == if Reached(e, w) > |CachedIn(w)| then Reached(e, w) else |CachedIn(w)|
  {
    var log, cached := TrimmedLog(w.log), |CachedIn(w)|;
    match e
    case Grow(content) =>
      TrimEndIsPlain(content);
      assert TrimmedLog(w.log + [content]) == log + [TrimEnd(content)];
    case Observe(first, end) =>
      ObserveWrites(w, first, end, if end < cached then cached else end);
    case Snapshot =>
      assert log[..|log|] == log;
      PrefixReadsBack(log, |log|);
  }

  // Over any run the file reads back as a prefix of the trimmed log, and never gets shorter.
  lemma {:induction false} CacheStaysPrefix(w: World, events: seq<Event>)
    requires Inv(w) && CanRun(w, events)
    ensures Inv(Run(w, events)) && |CachedIn(w)| <= |CachedIn(Run(w, events))|
    decreases |events|
  {
    if events != [] {
      StepKeepsInv(w, events[0]);
      CacheStaysPrefix(Step(w, events[0]), events[1..]);
    }
  }

  lemma EmptyCacheIsPrefix(log: seq<Content>)
    requires forall i :: 0 <= i < |log| ==> NoLF(TrimEnd(log[i]))
    ensures Inv(World(log, None))
  {
    forall i | 0 <= i < |log|
      ensures Plain(TrimmedLog(log)[i])
    {
      TrimEndIsPlain(log[i]);
    }
  }

  // In particular from an empty cache, for logs whose lines hold no line feed.
  lemma CacheFollowsFromEmpty(log: seq<Content>, events: seq<Event>)
    requires forall i :: 0 <= i < |log| ==> NoLF(TrimEnd(log[i]))
    requires CanRun(World(log, None), events)
    ensures var w := Run(World(log, None), events);
            |CachedIn(w)| <= |w.log| && forall k :: 0 <= k < |CachedIn(w)| ==> StoredAs(w.log[k], CachedIn(w)[k])
  {
    EmptyCacheIsPrefix(log);
    CacheStaysPrefix(World(log, None), events);
    PrefixIsStored(Run(World(log, None), events));
  }

  lemma {:induction false} RunAppend(w: World, a: seq<Event>, b: seq<Event>)
    requires CanRun(w, a + b)
    ensures CanRun(w, a) && CanRun(Run(w, a), b) && Run(w, a + b) == Run(Run(w, a), b)
    decreases |a|
  {
    if a == [] {
      assert a + b == b;
    } else {
      assert (a + b)[1..] == a[1..] + b && (a + b)[0] == a[0];
      RunAppend(Step(w, a[0]), a[1..], b);
    }
  }

  // A run that has just seen a window has cached the log at least to its end, and one that has just taken a snapshot has
  // cached all of it.
  lemma WhatIsSeenIsCached(log: seq<Content>, events: seq<Event>, last: Event)
    requires forall i :: 0 <= i < |log| ==> NoLF(TrimEnd(log[i]))
    requires CanRun(World(log, None), events + [last])
    ensures var w := Run(World(log, None), events + [last]);
            && (forall k :: 0 <= k < |CachedIn(w)| <= |w.log| ==> StoredAs(w.log[k], CachedIn(w)[k]))
            && match last
               case Observe(_, end) => end <= |CachedIn(w)| <= |w.log|
               case Snapshot => |CachedIn(w)| == |w.log|
               case Grow(content) => w.log != [] && w.log[|w.log| - 1] == content
  {
    RunAppend(World(log, None), events, [last]);
    EmptyCacheIsPrefix(log);
    CacheStaysPrefix(World(log, None), events);
    var before := Run(World(log, None), events);
    assert [last][1..] == [];
    StepKeepsInv(before, last);
    PrefixIsStored(Step(before, last));
  }

  // Any window that starts in reach and goes to the end of the log may be seen, and completes the cache; so does a
  // snapshot.
  lemma WindowInReachCompletes(w: World, first: nat, e: Event)
    requires Inv(w) && 1 <= first <= |CachedIn(w)| + 1 && (e == Observe(first, |w.log|) || e == Snapshot)
    requires first <= |w.log|
    ensures CanHappen(w, e)
    ensures var w' := Step(w, e);
            w'.log == w.log && |CachedIn(w')| == |w.log| && forall k :: 0 <= k < |w.log| ==> StoredAs(w.log[k], CachedIn(w')[k])
  {
    StepKeepsInv(w, e);
    PrefixIsStored(Step(w, e));
  }

  // Cached line by cached line, a prefix of the trimmed log is what is stored of the log.
  lemma PrefixIsStored(w: World)
    requires Inv(w)
    ensures |CachedIn(w)| <= |w.log| && forall k :: 0 <= k < |CachedIn(w)| ==> StoredAs(w.log[k], CachedIn(w)[k])
  {
    forall k | 0 <= k < |CachedIn(w)|
      ensures StoredAs(w.log[k], CachedIn(w)[k])
    {
      TrimEndStores(w.log[k]);
      assert CachedIn(w)[k] == TrimmedLog(w.log)[..|CachedIn(w)|][k];
    }
  }

  // Seeing the same window again right away changes nothing in the file.
  lemma ObservingAgain(w: World, first: nat, end: nat)
    requires Inv(w) && CanHappen(w, Observe(first, end))
    ensures var once := Step(w, Observe(first, end));
            CanHappen(once, Observe(first, end)) && Step(once, Observe(first, end)) == once
  {
    var cached := |CachedIn(w)|;
    var reach := if end < cached then cached else end;
    ObserveWrites(w, first, end, reach);
    StepKeepsInv(w, Observe(first, end));
    ObserveWrites(Step(w, Observe(first, end)), first, end, reach);
  }
}
