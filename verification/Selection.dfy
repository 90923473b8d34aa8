/**
 The paper-balanced selection of integrations/zotero_lightrag/index_revision.py: every annotation, and of each paper an
 even sample of its chunks in reading order.
 */
module Selection {
  import opened Outcomes
  import opened Seqs
  import opened Ordering
  import opened Sampling

  datatype Kind = Annotation | PdfChunk | OtherKind(name: string)

  datatype Row = Row(kind: Kind, source: string, body: string)

  // Where a row comes from; fields that may be absent.
  datatype Origin = Origin(itemKey: Option<string>, page: Option<int>, chunk: Option<int>)

  type Provenance = map<string, Origin>

  datatype MissingKey = NoProvenance(source: string) | NoItemKey(source: string)

  // ----- Reading order -----

  function OrZero(n: Option<int>): int {
    match n case Some(value) => value case None => 0
  }

  function OriginOf(source: string, provenance: Provenance): Origin {
    if source in provenance then provenance[source] else Origin(None, None, None)
  }

  predicate ReadsBefore(a: Row, b: Row, provenance: Provenance) {
    var x, y := OriginOf(a.source, provenance), OriginOf(b.source, provenance);
    if OrZero(x.page) != OrZero(y.page) then OrZero(x.page) < OrZero(y.page)
    else if OrZero(x.chunk) != OrZero(y.chunk) then OrZero(x.chunk) < OrZero(y.chunk)
    else StringLeq(a.source, b.source)
  }

  function ReadingOrder(provenance: Provenance): Order<Row> {
    (a: Row, b: Row) => ReadsBefore(a, b, provenance)
  }

  // By page, then by chunk, each 0 where it is not known, then by source name.
  lemma ReadingOrderMeans(provenance: Provenance, a: Row, b: Row)
    ensures var page := (r: Row) => if r.source in provenance && provenance[r.source].page.Some? then provenance[r.source].page.value else 0;
            var chunk := (r: Row) => if r.source in provenance && provenance[r.source].chunk.Some? then provenance[r.source].chunk.value else 0;
            ReadingOrder(provenance)(a, b) <==>
            page(a) < page(b) || (page(a) == page(b) && (chunk(a) < chunk(b) || (chunk(a) == chunk(b) && StringLeq(a.source, b.source))))
  {
  }

  lemma ReadingOrderIsTotal(provenance: Provenance)
    ensures TotalPreorder(ReadingOrder(provenance))
  {
    StringOrder();
    forall a, b
      ensures ReadsBefore(a, b, provenance) || ReadsBefore(b, a, provenance)
    {
      StringsCompare(a.source, b.source);
    }
    forall a, b, c | ReadsBefore(a, b, provenance) && ReadsBefore(b, c, provenance)
      ensures ReadsBefore(a, c, provenance)
    {
      assert StringLeq(a.source, b.source) && StringLeq(b.source, c.source) ==> StringLeq(a.source, c.source);
    }
  }

  // ----- The sample of one paper -----

  function Pick(rows: seq<Row>, wanted: int): (out: seq<Row>)
    ensures |out| == |Positions(|rows|, wanted)|
  {
    PositionsAreEven(|rows|, wanted);
    Elements(rows, Positions(|rows|, wanted))
  }

  function Elements<X>(s: seq<X>, positions: seq<nat>): (out: seq<X>)
    requires forall i :: 0 <= i < |positions| ==> positions[i] < |s|
    ensures |out| == |positions|
  {
    seq(|positions|, i requires 0 <= i < |positions| => s[positions[i]])
  }

  lemma {:induction false} IncreasingPositionsTakeEachOnce<X>(s: seq<X>, positions: seq<nat>, bound: nat)
    requires bound <= |s|
    requires forall i, j :: 0 <= i < j < |positions| ==> positions[i] < positions[j]
    requires forall i :: 0 <= i < |positions| ==> positions[i] < bound
    ensures multiset(Elements(s, positions)) <= multiset(s[..bound])
    decreases |positions|
  {
    if positions != [] {
      var n := |positions| - 1;
      var last := positions[n];
      IncreasingPositionsTakeEachOnce(s, positions[..n], last);
      assert Elements(s, positions) == Elements(s, positions[..n]) + [s[last]];
      assert s[..bound] == s[..last] + [s[last]] + s[last + 1..bound];
    }
  }

  // A paper gives as many chunks as wanted, or all it has, and no chunk twice.
  lemma PickTakesEachOnce(rows: seq<Row>, wanted: int)
    ensures multiset(Pick(rows, wanted)) <= multiset(rows)
    ensures |Pick(rows, wanted)| == if wanted <= 0 then 0 else if wanted < |rows| then wanted else |rows|
    ensures wanted >= |rows| ==> Pick(rows, wanted) == rows
  {
    var p := Positions(|rows|, wanted);
    PositionsAreEven(|rows|, wanted);
    IncreasingPositionsTakeEachOnce(rows, p, |rows|);
    assert rows[..|rows|] == rows;
    if wanted >= |rows| {
      forall i | 0 <= i < |rows|
        ensures p[i] == i
      {
        AllPositions(p, |rows|, i);
      }
    }
  }

  lemma {:induction false} AllPositions(p: seq<nat>, n: nat, i: nat)
    requires |p| == n && i < n
    requires forall j, k :: 0 <= j < k < n ==> p[j] < p[k]
    requires forall j :: 0 <= j < n ==> p[j] < n
    ensures p[i] == i
  {
    AtLeastIndex(p, i);
    AtMostIndex(p, n, i);
  }

  lemma {:induction false} AtLeastIndex(p: seq<nat>, i: nat)
    requires i < |p|
    requires forall j, k :: 0 <= j < k < |p| ==> p[j] < p[k]
    ensures i <= p[i]
  {
    if i > 0 {
      AtLeastIndex(p, i - 1);
    }
  }

  lemma {:induction false} AtMostIndex(p: seq<nat>, n: nat, i: nat)
    requires |p| == n && i < n
    requires forall j, k :: 0 <= j < k < n ==> p[j] < p[k]
    requires forall j :: 0 <= j < n ==> p[j] < n
    ensures p[i] <= i
    decreases n - i
  {
    if i < n - 1 {
      AtMostIndex(p, n, i + 1);
    }
  }

  // ----- The selection -----

  predicate IsAnnotation(row: Row) {
    row.kind == Annotation
  }

  function PaperOf(row: Row, provenance: Provenance): Option<string> {
    if row.kind == PdfChunk then OriginOf(row.source, provenance).itemKey else None
  }

  function ChunkOf(paper: string, provenance: Provenance): Row -> bool {
    (row: Row) => PaperOf(row, provenance) == Some(paper)
  }

  // The first chunk that cannot be attributed to a paper.
  function FirstMissing(rows: seq<Row>, provenance: Provenance): Option<MissingKey> {
    if rows == [] then None
    else if rows[0].kind != PdfChunk then FirstMissing(rows[1..], provenance)
    else if rows[0].source !in provenance then Some(NoProvenance(rows[0].source))
    else if provenance[rows[0].source].itemKey.None? then Some(NoItemKey(rows[0].source))
    else FirstMissing(rows[1..], provenance)
  }

  lemma ChunkOfIff(paper: string, provenance: Provenance, row: Row)
    ensures ChunkOf(paper, provenance)(row) <==> row.kind == PdfChunk && row.source in provenance && provenance[row.source].itemKey == Some(paper)
  {
  }

  // Complete indexing takes every row; otherwise the first chunk without provenance or without a paper is reported, and
  // only that.
  lemma SelectionRefusedFor(rows: seq<Row>, provenance: Provenance, complete: bool, wanted: int)
    ensures complete ==> Selected(rows, provenance, complete, wanted) == Ok(rows)
    ensures !complete && (forall i :: 0 <= i < |rows| ==> Attributed(rows[i], provenance)) ==> Selected(rows, provenance, complete, wanted).Ok?
    ensures !complete ==> forall i :: 0 <= i < |rows| && !Attributed(rows[i], provenance) && (forall j :: 0 <= j < i ==> Attributed(rows[j], provenance)) ==>
              Selected(rows, provenance, complete, wanted) ==
              Err(if rows[i].source in provenance then NoItemKey(rows[i].source) else NoProvenance(rows[i].source))
  {
    forall i | 0 <= i < |rows| && !Attributed(rows[i], provenance) && (forall j :: 0 <= j < i ==> Attributed(rows[j], provenance))
      ensures FirstMissing(rows, provenance) == Some(if rows[i].source in provenance then NoItemKey(rows[i].source) else NoProvenance(rows[i].source))
    {
      FirstMissingAt(rows, provenance, i);
    }
    if forall i :: 0 <= i < |rows| ==> Attributed(rows[i], provenance) {
      NoneMissing(rows, provenance);
    }
  }

  predicate Attributed(row: Row, provenance: Provenance) {
    row.kind == PdfChunk ==> row.source in provenance && provenance[row.source].itemKey.Some?
  }

  lemma {:induction false} FirstMissingAt(rows: seq<Row>, provenance: Provenance, i: nat)
    requires i < |rows| && !Attributed(rows[i], provenance) && forall j :: 0 <= j < i ==> Attributed(rows[j], provenance)
    ensures FirstMissing(rows, provenance) == Some(if rows[i].source in provenance then NoItemKey(rows[i].source) else NoProvenance(rows[i].source))
    decreases i
  {
    if i > 0 {
      assert Attributed(rows[0], provenance);
      FirstMissingAt(rows[1..], provenance, i - 1);
    }
  }

  lemma {:induction false} NoneMissing(rows: seq<Row>, provenance: Provenance)
    requires forall i :: 0 <= i < |rows| ==> Attributed(rows[i], provenance)
    ensures FirstMissing(rows, provenance) == None
  {
    if rows != [] {
      assert Attributed(rows[0], provenance);
      NoneMissing(rows[1..], provenance);
    }
  }

  // Papers in the order their first chunks come.
  function Papers(rows: seq<Row>, provenance: Provenance, seen: set<string>): seq<string>
    decreases |rows|
  {
    if rows == [] then []
    else
      match PaperOf(rows[0], provenance)
      case None => Papers(rows[1..], provenance, seen)
      case Some(paper) =>
        if paper in seen then Papers(rows[1..], provenance, seen)
        else [paper] + Papers(rows[1..], provenance, seen + {paper})
  }

  function Sample(rows: seq<Row>, provenance: Provenance, wanted: int, paper: string): seq<Row> {
    Pick(Sort(Filter(rows, ChunkOf(paper, provenance)), ReadingOrder(provenance)), wanted)
  }

  function Samples(papers: seq<string>, rows: seq<Row>, provenance: Provenance, wanted: int): seq<Row> {
    if papers == [] then []
    else Sample(rows, provenance, wanted, papers[0]) + Samples(papers[1..], rows, provenance, wanted)
  }

  function Selected(rows: seq<Row>, provenance: Provenance, complete: bool, wanted: int): Result<seq<Row>, MissingKey> {
    if complete then Ok(rows)
    else
      match FirstMissing(rows, provenance)
      case Some(missing) => Err(missing)
      case None => Ok(Filter(rows, IsAnnotation) + Samples(Papers(rows, provenance, {}), rows, provenance, wanted))
  }

  method SelectRows(rows: seq<Row>, provenance: Provenance, complete: bool, wanted: int) returns (outcome: Result<seq<Row>, MissingKey>)
    ensures outcome == Selected(rows, provenance, complete, wanted)
  {
    if complete {
      return Ok(rows);
    }
    var perPaper, papers, missing := GroupByPaper(rows, provenance);
    if missing.Some? {
      return Err(missing.value);
    }
    var selected := Filter(rows, IsAnnotation);
    assert papers[0..] == papers;
    for i := 0 to |papers|
      invariant selected + Samples(papers[i..], rows, provenance, wanted) == Filter(rows, IsAnnotation) + Samples(papers, rows, provenance, wanted)
    {
      var ordered := Sort(perPaper[papers[i]], ReadingOrder(provenance));
      assert papers[i..][1..] == papers[i + 1..];
      Assoc(selected, Pick(ordered, wanted), Samples(papers[i + 1..], rows, provenance, wanted));
      selected := selected + Pick(ordered, wanted);
    }
    assert selected + [] == selected;
    return Ok(selected);
  }

  // The dictionary of the papers' chunks, with its keys in the order they were added.
  method GroupByPaper(rows: seq<Row>, provenance: Provenance)
    returns (perPaper: map<string, seq<Row>>, papers: seq<string>, missing: Option<MissingKey>)
    ensures missing == FirstMissing(rows, provenance)
    ensures missing.None? ==> papers == Papers(rows, provenance, {})
    ensures missing.None? ==> forall paper :: paper in papers ==> paper in perPaper && perPaper[paper] == Filter(rows, ChunkOf(paper, provenance))
  {
    perPaper, papers, missing := map[], [], None;
    ghost var seen: set<string> := {};
    assert rows[0..] == rows && rows[..|rows|] == rows && [] + Papers(rows, provenance, seen) == Papers(rows, provenance, seen);
    for i := 0 to |rows|
      invariant missing == None && FirstMissing(rows[i..], provenance) == FirstMissing(rows, provenance)
      invariant perPaper.Keys == seen
      invariant papers + Papers(rows[i..], provenance, seen) == Papers(rows, provenance, {})
      invariant Grouped(perPaper, rows[..i], provenance)
    {
      GroupStep(perPaper, rows, i, provenance);
      PapersStep(papers, rows, i, provenance, seen);
      var row := rows[i];
      if row.kind != PdfChunk {
        continue;
      }
      if row.source !in provenance {
        return map[], [], Some(NoProvenance(row.source));
      }
      var origin := provenance[row.source];
      if origin.itemKey.None? {
        return map[], [], Some(NoItemKey(row.source));
      }
      var paper := origin.itemKey.value;
      if paper !in perPaper {
        papers := papers + [paper];
      }
      perPaper, seen := AddTo(perPaper, paper, row), seen + {paper};
    }
    assert papers + [] == papers;
    GroupedPapers(perPaper, rows, provenance);
  }

  function AddTo(perPaper: map<string, seq<Row>>, paper: string, row: Row): (out: map<string, seq<Row>>)
    ensures out.Keys == perPaper.Keys + {paper}
  {
    perPaper[paper := (if paper in perPaper then perPaper[paper] else []) + [row]]
  }

  lemma PapersStep(papers: seq<string>, rows: seq<Row>, i: nat, provenance: Provenance, seen: set<string>)
    requires i < |rows|
    ensures FirstMissing(rows[i..], provenance) ==
            if rows[i].kind == PdfChunk && rows[i].source !in provenance then Some(NoProvenance(rows[i].source))
            else if rows[i].kind == PdfChunk && provenance[rows[i].source].itemKey.None? then Some(NoItemKey(rows[i].source))
            else FirstMissing(rows[i + 1..], provenance)
    ensures papers + Papers(rows[i..], provenance, seen) ==
            match PaperOf(rows[i], provenance)
            case None => papers + Papers(rows[i + 1..], provenance, seen)
            case Some(paper) => (if paper in seen then papers else papers + [paper]) + Papers(rows[i + 1..], provenance, seen + {paper})
  {
    assert forall paper :: paper in seen ==> seen + {paper} == seen;
    assert rows[i..][1..] == rows[i + 1..];
    match PaperOf(rows[i], provenance)
    case None =>
    case Some(paper) =>
      Assoc(papers, [paper], Papers(rows[i + 1..], provenance, seen + {paper}));
  }

  ghost predicate Grouped(perPaper: map<string, seq<Row>>, rows: seq<Row>, provenance: Provenance) {
    forall paper :: Filter(rows, ChunkOf(paper, provenance)) == if paper in perPaper then perPaper[paper] else []
  }

  lemma GroupStep(perPaper: map<string, seq<Row>>, rows: seq<Row>, i: nat, provenance: Provenance)
    requires i < |rows| && Grouped(perPaper, rows[..i], provenance)
    ensures match PaperOf(rows[i], provenance)
            case None => Grouped(perPaper, rows[..i + 1], provenance)
            case Some(paper) => Grouped(AddTo(perPaper, paper, rows[i]), rows[..i + 1], provenance)
  {
    forall paper
      ensures Filter(rows[..i + 1], ChunkOf(paper, provenance)) ==
              (if paper in perPaper then perPaper[paper] else []) + (if PaperOf(rows[i], provenance) == Some(paper) then [rows[i]] else [])
    {
      FilterPrefix(rows, i, ChunkOf(paper, provenance));
      assert Filter(rows[..i], ChunkOf(paper, provenance)) == if paper in perPaper then perPaper[paper] else [];
    }
  }

  lemma GroupedPapers(perPaper: map<string, seq<Row>>, rows: seq<Row>, provenance: Provenance)
    requires Grouped(perPaper, rows, provenance)
    ensures forall paper :: paper in Papers(rows, provenance, {}) ==> paper in perPaper && perPaper[paper] == Filter(rows, ChunkOf(paper, provenance))
  {
    forall paper | paper in Papers(rows, provenance, {})
      ensures paper in perPaper && perPaper[paper] == Filter(rows, ChunkOf(paper, provenance))
    {
      PapersAre(rows, provenance, {}, paper);
    }
  }

  // ----- What is selected -----

  lemma {:induction false} PapersAre(rows: seq<Row>, provenance: Provenance, seen: set<string>, paper: string)
    ensures paper in Papers(rows, provenance, seen) <==> paper !in seen && Filter(rows, ChunkOf(paper, provenance)) != []
    decreases |rows|
  {
    if rows != [] {
      match PaperOf(rows[0], provenance)
      case None =>
        PapersAre(rows[1..], provenance, seen, paper);
      case Some(first) =>
        PapersAre(rows[1..], provenance, if first in seen then seen else seen + {first}, paper);
    }
  }

  ghost predicate AllDiffer<X>(s: seq<X>) {
    forall i, j :: 0 <= i < j < |s| ==> s[i] != s[j]
  }

  lemma {:induction false} PapersDiffer(rows: seq<Row>, provenance: Provenance, seen: set<string>)
    ensures AllDiffer(Papers(rows, provenance, seen))
    decreases |rows|
  {
    if rows != [] {
      match PaperOf(rows[0], provenance)
      case None =>
        PapersDiffer(rows[1..], provenance, seen);
      case Some(first) =>
        var seen' := if first in seen then seen else seen + {first};
        PapersDiffer(rows[1..], provenance, seen');
        PapersAre(rows[1..], provenance, seen', first);
    }
  }

  // Everything in a paper's sample is a chunk of that paper.
  lemma SampleIsOfPaper(rows: seq<Row>, provenance: Provenance, wanted: int, paper: string)
    ensures forall row :: row in Sample(rows, provenance, wanted, paper) ==> row in rows && PaperOf(row, provenance) == Some(paper)
  {
    var chunks := Filter(rows, ChunkOf(paper, provenance));
    var ordered := Sort(chunks, ReadingOrder(provenance));
    ReadingOrderIsTotal(provenance);
    SortSorts(chunks, ReadingOrder(provenance));
    PickTakesEachOnce(ordered, wanted);
    forall row | row in Pick(ordered, wanted)
      ensures row in rows && PaperOf(row, provenance) == Some(paper)
    {
      assert row in multiset(Pick(ordered, wanted));
      assert row in multiset(ordered);
      FilterMember(rows, ChunkOf(paper, provenance), row);
    }
  }

  lemma {:induction false} FilterAll<X>(s: seq<X>, keep: X -> bool)
    requires forall x :: x in s ==> keep(x)
    ensures Filter(s, keep) == s
  {
    if s != [] {
      FilterAll(s[1..], keep);
      assert s == [s[0]] + s[1..];
    }
  }

  lemma {:induction false} FilterNothing<X>(s: seq<X>, keep: X -> bool)
    requires forall x :: x in s ==> !keep(x)
    ensures Filter(s, keep) == []
  {
    if s != [] {
      FilterNothing(s[1..], keep);
    }
  }

  lemma {:induction false} SamplesOfPaper(papers: seq<string>, rows: seq<Row>, provenance: Provenance, wanted: int, paper: string)
    requires AllDiffer(papers)
    ensures Filter(Samples(papers, rows, provenance, wanted), ChunkOf(paper, provenance)) ==
            if paper in papers then Sample(rows, provenance, wanted, paper) else []
    ensures Filter(Samples(papers, rows, provenance, wanted), IsAnnotation) == []
    decreases |papers|
  {
    if papers != [] {
      var head, rest := Sample(rows, provenance, wanted, papers[0]), Samples(papers[1..], rows, provenance, wanted);
      SamplesOfPaper(papers[1..], rows, provenance, wanted, paper);
      SampleIsOfPaper(rows, provenance, wanted, papers[0]);
      FilterAppend(head, rest, ChunkOf(paper, provenance));
      FilterAppend(head, rest, IsAnnotation);
      FilterNothing(head, IsAnnotation);
      if paper == papers[0] {
        FilterAll(head, ChunkOf(paper, provenance));
        assert paper !in papers[1..];
        assert head + [] == head;
      } else {
        FilterNothing(head, ChunkOf(paper, provenance));
        assert paper in papers <==> paper in papers[1..];
      }
    }
  }

  lemma {:induction false} SamplesAreChunks(papers: seq<string>, rows: seq<Row>, provenance: Provenance, wanted: int)
    ensures forall row :: row in Samples(papers, rows, provenance, wanted) ==> row in rows && PaperOf(row, provenance).Some?
    decreases |papers|
  {
    if papers != [] {
      SampleIsOfPaper(rows, provenance, wanted, papers[0]);
      SamplesAreChunks(papers[1..], rows, provenance, wanted);
    }
  }

  // The selection holds all annotations and, of every paper, exactly the even sample of its chunks in reading order, and
  // no other row.
  lemma SelectionIsBalanced(rows: seq<Row>, provenance: Provenance, wanted: int, paper: string)
    requires FirstMissing(rows, provenance) == None
    ensures var chunks := Filter(rows, ChunkOf(paper, provenance));
            var selected := Selected(rows, provenance, false, wanted).value;
            && Filter(selected, IsAnnotation) == Filter(rows, IsAnnotation)
            && Filter(selected, ChunkOf(paper, provenance)) == Pick(Sort(chunks, ReadingOrder(provenance)), wanted)
            && |Filter(selected, ChunkOf(paper, provenance))| == (if wanted <= 0 then 0 else if wanted < |chunks| then wanted else |chunks|)
            && multiset(Filter(selected, ChunkOf(paper, provenance))) <= multiset(chunks)
            && forall row :: row in selected ==> row in rows && (IsAnnotation(row) || PaperOf(row, provenance).Some?)
  {
    NothingElse(rows, provenance, wanted);
    var annotations, papers := Filter(rows, IsAnnotation), Papers(rows, provenance, {});
    var chunks, samples := Filter(rows, ChunkOf(paper, provenance)), Samples(papers, rows, provenance, wanted);
    PapersDiffer(rows, provenance, {});
    PapersAre(rows, provenance, {}, paper);
    SamplesOfPaper(papers, rows, provenance, wanted, paper);
    FilterAppend(annotations, samples, IsAnnotation);
    FilterAppend(annotations, samples, ChunkOf(paper, provenance));
    AnnotationsOnly(rows, paper, provenance);
    ReadingOrderIsTotal(provenance);
    SortSorts(chunks, ReadingOrder(provenance));
    PickTakesEachOnce(Sort(chunks, ReadingOrder(provenance)), wanted);
    assert annotations + [] == annotations;
    assert [] + Sample(rows, provenance, wanted, paper) == Sample(rows, provenance, wanted, paper);
  }

  lemma NothingElse(rows: seq<Row>, provenance: Provenance, wanted: int)
    requires FirstMissing(rows, provenance) == None
    ensures forall row :: row in Selected(rows, provenance, false, wanted).value ==>
                            row in rows && (IsAnnotation(row) || PaperOf(row, provenance).Some?)
  {
    SamplesAreChunks(Papers(rows, provenance, {}), rows, provenance, wanted);
    forall row | row in Filter(rows, IsAnnotation)
      ensures row in rows && IsAnnotation(row)
    {
      FilterMember(rows, IsAnnotation, row);
    }
  }

  lemma AnnotationsOnly(rows: seq<Row>, paper: string, provenance: Provenance)
    ensures Filter(Filter(rows, IsAnnotation), IsAnnotation) == Filter(rows, IsAnnotation)
    ensures Filter(Filter(rows, IsAnnotation), ChunkOf(paper, provenance)) == []
  {
    forall row | row in Filter(rows, IsAnnotation)
      ensures IsAnnotation(row)
    {
      FilterMember(rows, IsAnnotation, row);
    }
    FilterAll(Filter(rows, IsAnnotation), IsAnnotation);
    FilterNothing(Filter(rows, IsAnnotation), ChunkOf(paper, provenance));
  }
}
