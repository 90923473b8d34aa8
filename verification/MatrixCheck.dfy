/**
 The check the server makes of a whole experiment matrix grid, and what the set command leaves for it: a grid that
 passes still passes after any edit.
 */
module MatrixCheck {
  import opened Outcomes
  import opened Text
  import opened Seqs
  import opened Matrix

  // ----- Scanning a list with distinct keys -----

  function Keys<X(==)>(items: seq<X>, key: X -> string): set<string> {
    set x <- items :: key(x)
  }

  // The first fault met when each item is looked at together with the keys before it.
  function FirstFault<X, F>(items: seq<X>, key: X -> string, fault: (X, set<string>) -> Option<F>, seen: set<string>): Option<F>
    decreases |items|
  {
    if items == [] then None
    else
      match fault(items[0], seen)
      case Some(f) => Some(f)
      case None => FirstFault(items[1..], key, fault, seen + {key(items[0])})
  }

  ghost predicate Distinct<X>(items: seq<X>, key: X -> string) {
    forall i, j :: 0 <= i < j < |items| ==> key(items[i]) != key(items[j])
  }

  ghost predicate AllOk<X>(items: seq<X>, ok: X -> bool) {
    forall i :: 0 <= i < |items| ==> ok(items[i])
  }

  lemma FirstFaultStep<X, F>(items: seq<X>, i: nat, key: X -> string, fault: (X, set<string>) -> Option<F>, seen: set<string>)
    requires i < |items| && seen == Keys(items[..i], key)
    ensures FirstFault(items[i..], key, fault, seen) ==
            match fault(items[i], seen)
            case Some(f) => Some(f)
            case None => FirstFault(items[i + 1..], key, fault, seen + {key(items[i])})
    ensures Keys(items[..i + 1], key) == seen + {key(items[i])}
  {
    assert items[i..][1..] == items[i + 1..];
    assert items[..i + 1] == items[..i] + [items[i]];
  }

  lemma DistinctCons<X>(head: X, rest: seq<X>, key: X -> string)
    ensures Distinct([head] + rest, key) <==> key(head) !in Keys(rest, key) && Distinct(rest, key)
  {
    var items := [head] + rest;
    assert forall i :: 0 <= i < |rest| ==> items[i + 1] == rest[i] && rest[i] in rest;
    if Distinct(items, key) {
      forall x | x in rest
        ensures key(x) != key(head)
      {
        var i :| 0 <= i < |rest| && rest[i] == x;
        assert items[i + 1] == x && items[0] == head;
      }
      forall i, j | 0 <= i < j < |rest|
        ensures key(rest[i]) != key(rest[j])
      {
        assert items[i + 1] == rest[i] && items[j + 1] == rest[j];
      }
    }
  }

  lemma KeysCons<X>(head: X, rest: seq<X>, key: X -> string)
    ensures Keys([head] + rest, key) == {key(head)} + Keys(rest, key)
  {
    assert forall x :: x in [head] + rest <==> x == head || x in rest;
  }

  // When an item's fault is that it is not ok or its key was seen, no fault is met exactly when all are ok and the
  // keys are distinct.
  lemma {:induction false} FirstFaultIff<X, F>(items: seq<X>, key: X -> string, fault: (X, set<string>) -> Option<F>, ok: X -> bool, seen: set<string>)
    requires forall x, s :: fault(x, s).None? <==> ok(x) && key(x) !in s
    ensures FirstFault(items, key, fault, seen).None? <==> AllOk(items, ok) && Distinct(items, key) && Keys(items, key) !! seen
    decreases |items|
  {
    if items != [] {
      var head, rest := items[0], items[1..];
      assert [head] + rest == items;
      FirstFaultIff(rest, key, fault, ok, seen + {key(head)});
      DistinctCons(head, rest, key);
      KeysCons(head, rest, key);
      assert AllOk(items, ok) <==> ok(head) && AllOk(rest, ok) by {
        assert forall i :: 0 <= i < |rest| ==> items[i + 1] == rest[i];
      }
    }
  }

  lemma DistinctSnoc<X>(items: seq<X>, last: X, key: X -> string)
    requires Distinct(items, key) && key(last) !in Keys(items, key)
    ensures Distinct(items + [last], key)
    ensures Keys(items + [last], key) == Keys(items, key) + {key(last)}
  {
    assert forall i :: 0 <= i < |items| ==> items[i] in items;
    assert forall x :: x in items + [last] <==> x in items || x == last;
  }

  // What is filtered out of a list with distinct keys shares no key with what stays.
  lemma {:induction false} FilterDistinct<X>(items: seq<X>, key: X -> string, keep: X -> bool, drop: X -> bool)
    requires Distinct(items, key)
    requires forall x :: drop(x) <==> !keep(x)
    ensures Distinct(Filter(items, keep), key)
    ensures Keys(Filter(items, keep), key) !! Keys(Filter(items, drop), key)
    ensures Keys(Filter(items, keep), key) + Keys(Filter(items, drop), key) == Keys(items, key)
  {
    if items != [] {
      var head, rest := items[0], items[1..];
      assert [head] + rest == items;
      DistinctCons(head, rest, key);
      FilterDistinct(rest, key, keep, drop);
      KeysCons(head, rest, key);
      DistinctCons(head, Filter(rest, keep), key);
      KeysCons(head, Filter(rest, keep), key);
      KeysCons(head, Filter(rest, drop), key);
      assert [] + Filter(rest, keep) == Filter(rest, keep) && [] + Filter(rest, drop) == Filter(rest, drop);
    }
  }

  // ----- The check -----

  datatype Part = RowPart | ColumnPart | CellPart

  datatype Fault =
    | IdRequired(part: Part)
    | LabelRequired(part: Part, id: string)
    | Duplicate(part: Part, id: string)
    | UnknownRow(cell: string, id: string)
    | UnknownColumn(cell: string, id: string)
    | UnknownRun(run: string)
    | StoreFailed(error: string)

  function NormalizeJson(s: string): string {
    if IsBlank(s) then "{}" else s
  }

  function NormalAxis(axis: Axis, matrixId: string): Axis {
    Axis(TrimSpace(axis.id), matrixId, TrimSpace(axis.name), axis.position, NormalizeJson(axis.data))
  }

  function NormalCell(cell: Cell, matrixId: string): Cell {
    cell.(id := TrimSpace(cell.id), matrixId := matrixId, rowId := TrimSpace(cell.rowId), columnId := TrimSpace(cell.columnId),
    runId := TrimSpace(cell.runId), cardId := TrimSpace(cell.cardId), data := NormalizeJson(cell.data))
  }

  // The conditions on a rewritten row or column, in the order they are looked at.
  function AxisFault(part: Part, id: string, name: string, seen: set<string>): Option<Fault> {
    if id == "" then Some(IdRequired(part))
    else if name == "" then Some(LabelRequired(part, id))
    else if id in seen then Some(Duplicate(part, id))
    else None
  }

  // Those on a rewritten cell.
  function CellFault(id: string, rowId: string, columnId: string, runId: string, rowIds: set<string>, columnIds: set<string>, runs: RunLookup, seen: set<string>): Option<Fault> {
    if id == "" then Some(IdRequired(CellPart))
    else if id in seen then Some(Duplicate(CellPart, id))
    else if rowId !in rowIds then Some(UnknownRow(id, rowId))
    else if columnId !in columnIds then Some(UnknownColumn(id, columnId))
    else RunFault(runId, runs)
  }

  function RunFault(run: string, runs: RunLookup): Option<Fault> {
    if run == "" then None
    else
      match runs(run)
      case Err(error) => Some(StoreFailed(error))
      case Ok(found) => if found then None else Some(UnknownRun(run))
  }

  function AxisKey(axis: Axis): string {
    TrimSpace(axis.id)
  }

  function CellKey(cell: Cell): string {
    TrimSpace(cell.id)
  }

  function AxisRule(part: Part): (Axis, set<string>) -> Option<Fault> {
    (axis: Axis, seen: set<string>) => AxisFault(part, TrimSpace(axis.id), TrimSpace(axis.name), seen)
  }

  function CellRule(rowIds: set<string>, columnIds: set<string>, runs: RunLookup): (Cell, set<string>) -> Option<Fault> {
    (c: Cell, seen: set<string>) =>
      CellFault(TrimSpace(c.id), TrimSpace(c.rowId), TrimSpace(c.columnId), TrimSpace(c.runId), rowIds, columnIds, runs, seen)
  }

  function CheckAxes(part: Part, axes: seq<Axis>): Option<Fault> {
    FirstFault(axes, AxisKey, AxisRule(part), {})
  }

  function AxisIds(axes: seq<Axis>): set<string> {
    Keys(axes, AxisKey)
  }

  function Check(grid: GridValue, runs: RunLookup): Option<Fault> {
    match CheckAxes(RowPart, grid.rows)
    case Some(fault) => Some(fault)
    case None =>
      match CheckAxes(ColumnPart, grid.columns)
      case Some(fault) => Some(fault)
      case None => FirstFault(grid.cells, CellKey, CellRule(AxisIds(grid.rows), AxisIds(grid.columns), runs), {})
  }

  predicate SoundAxis(axis: Axis) {
    TrimSpace(axis.id) != "" && TrimSpace(axis.name) != ""
  }

  predicate SoundCell(cell: Cell, rowIds: set<string>, columnIds: set<string>, runs: RunLookup) {
    && TrimSpace(cell.id) != ""
    && TrimSpace(cell.rowId) in rowIds
    && TrimSpace(cell.columnId) in columnIds
    && (TrimSpace(cell.runId) == "" || runs(TrimSpace(cell.runId)) == Ok(true))
  }

  function SoundIn(rowIds: set<string>, columnIds: set<string>, runs: RunLookup): Cell -> bool {
    (cell: Cell) => SoundCell(cell, rowIds, columnIds, runs)
  }

  ghost predicate SoundAxes(axes: seq<Axis>) {
    AllOk(axes, SoundAxis) && Distinct(axes, AxisKey)
  }

  ghost predicate SoundCells(cells: seq<Cell>, rowIds: set<string>, columnIds: set<string>, runs: RunLookup) {
    AllOk(cells, SoundIn(rowIds, columnIds, runs)) && Distinct(cells, CellKey)
  }

  // Ids and labels are there, ids are distinct, and cells refer to rows, columns and runs that exist.
  ghost predicate Sound(grid: GridValue, runs: RunLookup) {
    && SoundAxes(grid.rows)
    && SoundAxes(grid.columns)
    && SoundCells(grid.cells, AxisIds(grid.rows), AxisIds(grid.columns), runs)
  }

  // The check passes exactly the sound grids.
  lemma CheckIff(grid: GridValue, runs: RunLookup)
    ensures Check(grid, runs) == None <==> Sound(grid, runs)
  {
    CheckAxesIff(RowPart, grid.rows);
    CheckAxesIff(ColumnPart, grid.columns);
    CheckCellsIff(grid.cells, AxisIds(grid.rows), AxisIds(grid.columns), runs);
  }

  lemma CheckAxesIff(part: Part, axes: seq<Axis>)
    ensures CheckAxes(part, axes) == None <==> SoundAxes(axes)
  {
    FirstFaultIff(axes, AxisKey, AxisRule(part), SoundAxis, {});
  }

  lemma CheckCellsIff(cells: seq<Cell>, rowIds: set<string>, columnIds: set<string>, runs: RunLookup)
    ensures FirstFault(cells, CellKey, CellRule(rowIds, columnIds, runs), {}) == None <==> SoundCells(cells, rowIds, columnIds, runs)
  {
    FirstFaultIff(cells, CellKey, CellRule(rowIds, columnIds, runs), SoundIn(rowIds, columnIds, runs), {});
  }

  // ----- The fault that is reported -----

  lemma {:induction false} FirstFaultFound<X, F>(items: seq<X>, key: X -> string, fault: (X, set<string>) -> Option<F>, ok: X -> bool, seen: set<string>) returns (i: nat)
    requires forall x, s :: fault(x, s).None? <==> ok(x) && key(x) !in s
    requires FirstFault(items, key, fault, seen).Some?
    ensures i < |items| && FirstFault(items, key, fault, seen) == fault(items[i], seen + Keys(items[..i], key))
    ensures AllOk(items[..i], ok) && Distinct(items[..i], key) && Keys(items[..i], key) !! seen
    decreases |items|
  {
    var head, rest := items[0], items[1..];
    if fault(head, seen).Some? {
      assert seen + Keys(items[..0], key) == seen;
      i := 0;
    } else {
      var k := FirstFaultFound(rest, key, fault, ok, seen + {key(head)});
      i := k + 1;
      assert items[..i] == [head] + rest[..k];
      DistinctCons(head, rest[..k], key);
      KeysCons(head, rest[..k], key);
      assert seen + {key(head)} + Keys(rest[..k], key) == seen + Keys(items[..i], key);
    }
  }

  ghost predicate Registered(axes: seq<Axis>, id: string) {
    exists k :: 0 <= k < |axes| && TrimSpace(axes[k].id) == id
  }

  // The first row or column that is not sound or comes again, and what is wrong with it.
  ghost predicate FaultyAxis(part: Part, axes: seq<Axis>, i: nat, fault: Fault) {
    && i < |axes| && SoundAxes(axes[..i])
    && var id, name := TrimSpace(axes[i].id), TrimSpace(axes[i].name);
       if id == "" then fault == IdRequired(part)
       else if name == "" then fault == LabelRequired(part, id)
       else Registered(axes[..i], id) && fault == Duplicate(part, id)
  }

  // The first cell without an id, with one met before, or of a row, column or run that is not there.
  ghost predicate FaultyCell(grid: GridValue, runs: RunLookup, i: nat, fault: Fault) {
    && i < |grid.cells| && SoundCells(grid.cells[..i], AxisIds(grid.rows), AxisIds(grid.columns), runs)
    && var id, rowId, columnId, run := TrimSpace(grid.cells[i].id), TrimSpace(grid.cells[i].rowId), TrimSpace(grid.cells[i].columnId), TrimSpace(grid.cells[i].runId);
       if id == "" then fault == IdRequired(CellPart)
       else if exists k :: 0 <= k < i && TrimSpace(grid.cells[k].id) == id then fault == Duplicate(CellPart, id)
       else if !Registered(grid.rows, rowId) then fault == UnknownRow(id, rowId)
       else if !Registered(grid.columns, columnId) then fault == UnknownColumn(id, columnId)
       else run != "" && runs(run) != Ok(true) && fault == if runs(run).Err? then StoreFailed(runs(run).error) else UnknownRun(run)
  }

  // What is reported is the first fault: rows come before columns, and those before cells.
  lemma FaultIsFirst(grid: GridValue, runs: RunLookup) returns (i: nat)
    requires Check(grid, runs).Some?
    ensures var fault := Check(grid, runs).value;
            if !SoundAxes(grid.rows) then FaultyAxis(RowPart, grid.rows, i, fault)
            else if !SoundAxes(grid.columns) then FaultyAxis(ColumnPart, grid.columns, i, fault)
            else FaultyCell(grid, runs, i, fault)
  {
    CheckAxesIff(RowPart, grid.rows);
    CheckAxesIff(ColumnPart, grid.columns);
    if !SoundAxes(grid.rows) {
      i := AxisFaultFound(RowPart, grid.rows);
    } else if !SoundAxes(grid.columns) {
      i := AxisFaultFound(ColumnPart, grid.columns);
    } else {
      i := CellFaultFound(grid, runs);
    }
  }

  lemma AxisFaultFound(part: Part, axes: seq<Axis>) returns (i: nat)
    requires CheckAxes(part, axes).Some?
    ensures FaultyAxis(part, axes, i, CheckAxes(part, axes).value)
  {
    i := FirstFaultFound(axes, AxisKey, AxisRule(part), SoundAxis, {});
    RegisteredIff(axes[..i], AxisKey(axes[i]));
  }

  lemma RegisteredIff(axes: seq<Axis>, id: string)
    ensures Registered(axes, id) <==> id in AxisIds(axes)
  {
    if id in AxisIds(axes) {
      var axis :| axis in axes && AxisKey(axis) == id;
      var k :| 0 <= k < |axes| && axes[k] == axis;
      assert TrimSpace(axes[k].id) == id;
    }
    if Registered(axes, id) {
      var k :| 0 <= k < |axes| && TrimSpace(axes[k].id) == id;
      assert axes[k] in axes && AxisKey(axes[k]) == id;
    }
  }

  lemma CellFaultFound(grid: GridValue, runs: RunLookup) returns (i: nat)
    requires FirstFault(grid.cells, CellKey, CellRule(AxisIds(grid.rows), AxisIds(grid.columns), runs), {}).Some?
    ensures FaultyCell(grid, runs, i, FirstFault(grid.cells, CellKey, CellRule(AxisIds(grid.rows), AxisIds(grid.columns), runs), {}).value)
  {
    var rowIds, columnIds, cells := AxisIds(grid.rows), AxisIds(grid.columns), grid.cells;
    i := FirstFaultFound(cells, CellKey, CellRule(rowIds, columnIds, runs), SoundIn(rowIds, columnIds, runs), {});
    assert {} + Keys(cells[..i], CellKey) == Keys(cells[..i], CellKey);
    CellFaultMeans(grid, runs, i, CellRule(rowIds, columnIds, runs)(cells[i], Keys(cells[..i], CellKey)));
  }

  lemma CellFaultMeans(grid: GridValue, runs: RunLookup, i: nat, fault: Option<Fault>)
    requires i < |grid.cells| && SoundCells(grid.cells[..i], AxisIds(grid.rows), AxisIds(grid.columns), runs) && fault.Some?
    requires fault == CellRule(AxisIds(grid.rows), AxisIds(grid.columns), runs)(grid.cells[i], Keys(grid.cells[..i], CellKey))
    ensures FaultyCell(grid, runs, i, fault.value)
  {
    var cell := grid.cells[i];
    RegisteredIff(grid.rows, TrimSpace(cell.rowId));
    RegisteredIff(grid.columns, TrimSpace(cell.columnId));
    KeySeenIff(grid.cells, i, TrimSpace(cell.id));
  }

  lemma KeySeenIff(cells: seq<Cell>, i: nat, id: string)
    requires i <= |cells|
    ensures id in Keys(cells[..i], CellKey) <==> exists k :: 0 <= k < i && TrimSpace(cells[k].id) == id
  {
    if id in Keys(cells[..i], CellKey) {
      var cell :| cell in cells[..i] && CellKey(cell) == id;
      var k :| 0 <= k < i && cells[..i][k] == cell;
      assert TrimSpace(cells[k].id) == id;
    }
    if k :| 0 <= k < i && TrimSpace(cells[k].id) == id {
      assert cells[..i][k] in cells[..i] && CellKey(cells[..i][k]) == id;
    }
  }

  // ----- The rewriting -----

  function Mapped<X>(items: seq<X>, f: X -> X): (out: seq<X>)
    ensures |out| == |items| && forall i :: 0 <= i < |items| ==> out[i] == f(items[i])
  {
    seq(|items|, i requires 0 <= i < |items| => f(items[i]))
  }

  function AxisNormalizer(matrixId: string): Axis -> Axis {
    (axis: Axis) => NormalAxis(axis, matrixId)
  }

  function CellNormalizer(matrixId: string): Cell -> Cell {
    (cell: Cell) => NormalCell(cell, matrixId)
  }

  function Normalized(grid: GridValue, matrixId: string): GridValue {
    GridValue(
      Mapped(grid.rows, AxisNormalizer(matrixId)),
      Mapped(grid.columns, AxisNormalizer(matrixId)),
      Mapped(grid.cells, CellNormalizer(matrixId)))
  }

  // What is rewritten: white space around ids and labels goes, the matrix is named, blank data becomes an empty object;
  // position, texts and value stay.
  lemma RewritingMeans(grid: GridValue, matrixId: string)
    ensures var grid' := Normalized(grid, matrixId);
            && |grid'.rows| == |grid.rows| && |grid'.columns| == |grid.columns| && |grid'.cells| == |grid.cells|
            && (forall i :: 0 <= i < |grid.rows| ==> AxisRewritten(grid.rows[i], grid'.rows[i], matrixId))
            && (forall i :: 0 <= i < |grid.columns| ==> AxisRewritten(grid.columns[i], grid'.columns[i], matrixId))
            && forall i :: 0 <= i < |grid.cells| ==> CellRewritten(grid.cells[i], grid'.cells[i], matrixId)
  {
  }

  ghost predicate AxisRewritten(axis: Axis, axis': Axis, matrixId: string) {
    && (axis'.id, axis'.name, axis'.matrixId, axis'.position) == (TrimSpace(axis.id), TrimSpace(axis.name), matrixId, axis.position)
    && axis'.data == if IsBlank(axis.data) then "{}" else axis.data
  }

  ghost predicate CellRewritten(cell: Cell, cell': Cell, matrixId: string) {
    && (cell'.id, cell'.rowId, cell'.columnId) == (TrimSpace(cell.id), TrimSpace(cell.rowId), TrimSpace(cell.columnId))
    && (cell'.runId, cell'.cardId, cell'.matrixId) == (TrimSpace(cell.runId), TrimSpace(cell.cardId), matrixId)
    && cell'.data == (if IsBlank(cell.data) then "{}" else cell.data)
    && (cell'.title, cell'.statement, cell'.metricKey, cell'.metricValue, cell'.note) == (cell.title, cell.statement, cell.metricKey, cell.metricValue, cell.note)
  }

  lemma {:induction false} FirstFaultMapped<X, F>(items: seq<X>, f: X -> X, key: X -> string, fault: (X, set<string>) -> Option<F>, seen: set<string>)
    requires forall x :: key(f(x)) == key(x)
    requires forall x, s :: fault(f(x), s) == fault(x, s)
    ensures FirstFault(Mapped(items, f), key, fault, seen) == FirstFault(items, key, fault, seen)
    decreases |items|
  {
    if items != [] {
      assert Mapped(items, f)[1..] == Mapped(items[1..], f);
      FirstFaultMapped(items[1..], f, key, fault, seen + {key(items[0])});
    }
  }

  lemma KeysMapped<X>(items: seq<X>, f: X -> X, key: X -> string)
    requires forall x :: key(f(x)) == key(x)
    ensures Keys(Mapped(items, f), key) == Keys(items, key)
  {
    var out := Mapped(items, f);
    forall i | 0 <= i < |items|
      ensures key(items[i]) in Keys(out, key) && key(out[i]) in Keys(items, key)
    {
      assert out[i] in out && items[i] in items;
      assert key(out[i]) == key(items[i]);
    }
  }

  lemma MappedTwice<X>(items: seq<X>, f: X -> X)
    requires forall x :: f(f(x)) == f(x)
    ensures Mapped(Mapped(items, f), f) == Mapped(items, f)
  {
  }

  lemma NormalAxisStable(axis: Axis, matrixId: string)
    ensures var out := NormalAxis(axis, matrixId);
            && NormalAxis(out, matrixId) == out && TrimSpace(out.id) == TrimSpace(axis.id) && TrimSpace(out.name) == TrimSpace(axis.name)
  {
    TrimmedStaysTrimmed(axis.id);
    TrimmedStaysTrimmed(axis.name);
  }

  lemma NormalCellStable(cell: Cell, matrixId: string)
    ensures var out := NormalCell(cell, matrixId);
            && NormalCell(out, matrixId) == out && TrimSpace(out.id) == TrimSpace(cell.id) && TrimSpace(out.rowId) == TrimSpace(cell.rowId)
            && TrimSpace(out.columnId) == TrimSpace(cell.columnId) && TrimSpace(out.runId) == TrimSpace(cell.runId)
  {
    TrimmedStaysTrimmed(cell.id);
    TrimmedStaysTrimmed(cell.rowId);
    TrimmedStaysTrimmed(cell.columnId);
    TrimmedStaysTrimmed(cell.runId);
    TrimmedStaysTrimmed(cell.cardId);
  }

  lemma CheckAxesNormal(part: Part, axes: seq<Axis>, matrixId: string)
    ensures var out := Mapped(axes, AxisNormalizer(matrixId));
            && CheckAxes(part, out) == CheckAxes(part, axes) && AxisIds(out) == AxisIds(axes)
            && Mapped(out, AxisNormalizer(matrixId)) == out
  {
    forall axis: Axis ensures AxisKey(AxisNormalizer(matrixId)(axis)) == AxisKey(axis)
                      ensures forall s :: AxisRule(part)(AxisNormalizer(matrixId)(axis), s) == AxisRule(part)(axis, s)
                      ensures AxisNormalizer(matrixId)(AxisNormalizer(matrixId)(axis)) == AxisNormalizer(matrixId)(axis)
    {
      NormalAxisStable(axis, matrixId);
    }
    FirstFaultMapped(axes, AxisNormalizer(matrixId), AxisKey, AxisRule(part), {});
    KeysMapped(axes, AxisNormalizer(matrixId), AxisKey);
    MappedTwice(axes, AxisNormalizer(matrixId));
  }

  lemma CheckCellsNormal(cells: seq<Cell>, matrixId: string, rowIds: set<string>, columnIds: set<string>, runs: RunLookup)
    ensures var out := Mapped(cells, CellNormalizer(matrixId));
            && FirstFault(out, CellKey, CellRule(rowIds, columnIds, runs), {}) == FirstFault(cells, CellKey, CellRule(rowIds, columnIds, runs), {})
            && Mapped(out, CellNormalizer(matrixId)) == out
  {
    var rule, normal := CellRule(rowIds, columnIds, runs), CellNormalizer(matrixId);
    forall cell: Cell ensures CellKey(normal(cell)) == CellKey(cell)
                      ensures forall s :: rule(normal(cell), s) == rule(cell, s)
                      ensures normal(normal(cell)) == normal(cell)
    {
      NormalCellStable(cell, matrixId);
    }
    FirstFaultMapped(cells, normal, CellKey, rule, {});
    MappedTwice(cells, normal);
  }

  // Checking the rewritten grid gives the same answer and rewrites nothing more.
  lemma CheckedIsStable(grid: GridValue, matrixId: string, runs: RunLookup)
    ensures Check(Normalized(grid, matrixId), runs) == Check(grid, runs)
    ensures Normalized(Normalized(grid, matrixId), matrixId) == Normalized(grid, matrixId)
  {
    CheckAxesNormal(RowPart, grid.rows, matrixId);
    CheckAxesNormal(ColumnPart, grid.columns, matrixId);
    CheckCellsNormal(grid.cells, matrixId, AxisIds(grid.rows), AxisIds(grid.columns), runs);
  }

  // ----- Setting one cell keeps a grid sound -----

  ghost predicate FreshId(id: string, taken: set<string>) {
    TrimSpace(id) != "" && TrimSpace(id) !in taken
  }

  ghost predicate AllFresh(grid: GridValue, ids: FreshIds) {
    FreshId(ids.row, AxisIds(grid.rows)) && FreshId(ids.column, AxisIds(grid.columns)) && FreshId(ids.cell, Keys(grid.cells, CellKey))
  }

  lemma EnsuringKeepsSound(fold: char -> char, axes: seq<Axis>, name: string, freshId: string)
    requires SoundAxes(axes) && TrimSpace(name) != "" && FreshId(freshId, AxisIds(axes))
    ensures var out := Ensured(fold, axes, name, freshId);
            && SoundAxes(out) && AxisIds(axes) <= AxisIds(out) && TrimSpace(EnsuredAxis(fold, axes, name, freshId).id) in AxisIds(out)
  {
    FindLabelIsFirst(fold, axes, name);
    var axis := NewAxis(axes, name, freshId);
    DistinctSnoc(axes, axis, AxisKey);
    assert EnsuredAxis(fold, axes, name, freshId) in Ensured(fold, axes, name, freshId) by {
      EnsuringAgainIff(fold, axes, name, freshId, freshId);
    }
  }

  lemma {:induction false} FirstRunIsOneOf(cells: seq<Cell>)
    ensures FirstRun(cells) == "" || exists c :: c in cells && c.runId == FirstRun(cells)
  {
    if cells != [] && cells[0].runId == "" {
      FirstRunIsOneOf(cells[1..]);
    }
  }

  lemma FilterAllOk<X>(items: seq<X>, keep: X -> bool, ok: X -> bool)
    requires AllOk(items, ok)
    ensures AllOk(Filter(items, keep), ok)
  {
    forall i | 0 <= i < |Filter(items, keep)|
      ensures ok(Filter(items, keep)[i])
    {
      FilterMember(items, keep, Filter(items, keep)[i]);
    }
  }

  // The written cell takes the id of a cell that goes, so ids stay distinct; its run is the given one or that of a
  // cell that goes.
  lemma UpsertKeepsSound(cells: seq<Cell>, cell: Cell, rowIds: set<string>, columnIds: set<string>, runs: RunLookup)
    requires SoundCells(cells, rowIds, columnIds, runs)
    requires SoundCell(cell, rowIds, columnIds, runs) && TrimSpace(cell.id) !in Keys(cells, CellKey)
    ensures SoundCells(Upserted(cells, cell), rowIds, columnIds, runs)
  {
    var there, elsewhere := SitsAt(cell.rowId, cell.columnId), SitsElsewhere(cell.rowId, cell.columnId);
    var replaced, kept, ok := Filter(cells, there), Filter(cells, elsewhere), SoundIn(rowIds, columnIds, runs);
    FilterDistinct(cells, CellKey, elsewhere, there);
    FilterAllOk(cells, there, ok);
    FilterAllOk(cells, elsewhere, ok);
    WrittenIsSound(cell, replaced, rowIds, columnIds, runs);
    DistinctSnoc(kept, Written(cells, cell), CellKey);
  }

  lemma WrittenIsSound(cell: Cell, replaced: seq<Cell>, rowIds: set<string>, columnIds: set<string>, runs: RunLookup)
    requires AllOk(replaced, SoundIn(rowIds, columnIds, runs)) && SoundCell(cell, rowIds, columnIds, runs)
    ensures SoundCell(AbsorbAll(cell, replaced), rowIds, columnIds, runs)
    ensures TrimSpace(AbsorbAll(cell, replaced).id) in Keys(replaced, CellKey) + {TrimSpace(cell.id)}
  {
    AbsorbedFields(cell, replaced);
    FirstRunIsOneOf(replaced);
    if replaced != [] {
      assert replaced[|replaced| - 1] in replaced;
      assert CellKey(replaced[|replaced| - 1]) in Keys(replaced, CellKey);
    }
    if FirstRun(replaced) != "" {
      var c :| c in replaced && c.runId == FirstRun(replaced);
      assert SoundIn(rowIds, columnIds, runs)(c);
    } else {
      assert TrimSpace("") == "";
    }
  }

  lemma MoreIdsKeepSound(cells: seq<Cell>, rowIds: set<string>, columnIds: set<string>, rowIds2: set<string>, columnIds2: set<string>, runs: RunLookup)
    requires SoundCells(cells, rowIds, columnIds, runs) && rowIds <= rowIds2 && columnIds <= columnIds2
    ensures SoundCells(cells, rowIds2, columnIds2, runs)
  {
    forall i | 0 <= i < |cells|
      ensures SoundIn(rowIds2, columnIds2, runs)(cells[i])
    {
      assert SoundIn(rowIds, columnIds, runs)(cells[i]);
    }
  }

  // A grid the server accepts is still accepted after any set command that gets through.
  lemma SetKeepsSound(fold: char -> char, grid: GridValue, matrixId: string, request: SetRequest, ids: FreshIds, runs: RunLookup, cards: string -> Option<string>)
    requires Check(grid, runs) == None && AllFresh(grid, ids)
    requires Resolve(fold, request, runs, cards).Ok?
    ensures Check(AfterSet(fold, grid, matrixId, Resolve(fold, request, runs, cards).value, ids), runs) == None
  {
    var r := Resolve(fold, request, runs, cards).value;
    var out := AfterSet(fold, grid, matrixId, r, ids);
    CheckIff(grid, runs);
    ResolvedMeans(fold, request, runs, cards);
    EnsuringKeepsSound(fold, grid.rows, r.rowName, ids.row);
    EnsuringKeepsSound(fold, grid.columns, r.columnName, ids.column);
    MoreIdsKeepSound(grid.cells, AxisIds(grid.rows), AxisIds(grid.columns), AxisIds(out.rows), AxisIds(out.columns), runs);
    UpsertKeepsSound(grid.cells, RequestedCell(fold, grid, matrixId, r, ids), AxisIds(out.rows), AxisIds(out.columns), runs);
    CheckIff(out, runs);
  }
}
