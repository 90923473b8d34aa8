/**
 Experiment matrices: the edit that sets one cell by row and column label, the display that looks it up, and the check
 the server makes of a whole grid. The cell filter works in place on the slice it is reading.
 */
module Matrix {
  import opened Outcomes
  import opened Text
  import opened Seqs

  // A row or a column.
  datatype Axis = Axis(id: string, matrixId: string, name: string, position: nat, data: string)

  datatype Cell = Cell(
    id: string, matrixId: string, rowId: string, columnId: string, runId: string, cardId: string,
    title: string, statement: string, metricKey: string, metricValue: string, note: string, data: string)

  datatype GridValue = GridValue(rows: seq<Axis>, columns: seq<Axis>, cells: seq<Cell>)

  // ----- Strings -----

  // strings.EqualFold, for a simple case folding of single characters.
  predicate EqualFold(fold: char -> char, s: string, t: string) {
    |s| == |t| && forall i :: 0 <= i < |s| ==> fold(s[i]) == fold(t[i])
  }

  function FirstNonEmpty(values: seq<string>): string {
    if values == [] then "" else if !IsBlank(values[0]) then values[0] else FirstNonEmpty(values[1..])
  }

  // ----- Rows and columns by label -----

  function FindLabel(fold: char -> char, axes: seq<Axis>, name: string): Option<Axis> {
    if axes == [] then None
    else if EqualFold(fold, TrimSpace(axes[0].name), name) then Some(axes[0])
    else FindLabel(fold, axes[1..], name)
  }

  function NewAxis(axes: seq<Axis>, name: string, freshId: string): Axis {
    Axis(freshId, "", name, |axes|, "{}")
  }

  function Ensured(fold: char -> char, axes: seq<Axis>, name: string, freshId: string): seq<Axis> {
    if FindLabel(fold, axes, name).Some? then axes else axes + [NewAxis(axes, name, freshId)]
  }

  function EnsuredAxis(fold: char -> char, axes: seq<Axis>, name: string, freshId: string): Axis {
    match FindLabel(fold, axes, name)
    case Some(axis) => axis
    case None => NewAxis(axes, name, freshId)
  }

  // The axis found carries the label and is the first that does; none is found exactly when none carries it.
  lemma {:induction false} FindLabelIsFirst(fold: char -> char, axes: seq<Axis>, name: string)
    ensures FindLabel(fold, axes, name).None? <==>
            forall i :: 0 <= i < |axes| ==> !EqualFold(fold, TrimSpace(axes[i].name), name)
    ensures FindLabel(fold, axes, name).Some? ==>
              exists i :: && 0 <= i < |axes| && axes[i] == FindLabel(fold, axes, name).value
                          && EqualFold(fold, TrimSpace(axes[i].name), name)
                          && forall j :: 0 <= j < i ==> !EqualFold(fold, TrimSpace(axes[j].name), name)
  {
    if axes != [] && !EqualFold(fold, TrimSpace(axes[0].name), name) {
      FindLabelIsFirst(fold, axes[1..], name);
      assert forall j :: 1 <= j < |axes| ==> axes[j] == axes[1..][j - 1];
      if FindLabel(fold, axes[1..], name).Some? {
        var i :| && 0 <= i < |axes[1..]| && axes[1..][i] == FindLabel(fold, axes[1..], name).value
                 && EqualFold(fold, TrimSpace(axes[1..][i].name), name)
                 && forall j :: 0 <= j < i ==> !EqualFold(fold, TrimSpace(axes[1..][j].name), name);
        assert axes[i + 1] == axes[1..][i];
      } else {
        assert forall j :: 0 <= j < |axes[1..]| ==> !EqualFold(fold, TrimSpace(axes[1..][j].name), name);
      }
    }
  }

  lemma {:induction false} FindLabelSnoc(fold: char -> char, axes: seq<Axis>, last: Axis, name: string)
    ensures FindLabel(fold, axes + [last], name) ==
            match FindLabel(fold, axes, name)
            case Some(axis) => Some(axis)
            case None => if EqualFold(fold, TrimSpace(last.name), name) then Some(last) else None
  {
    if axes == [] {
      assert axes + [last] == [last];
    } else {
      assert (axes + [last])[1..] == axes[1..] + [last];
      FindLabelSnoc(fold, axes[1..], last, name);
    }
  }

  // Asking again finds the same axis and adds nothing, exactly when the label was known or survives trimming.
  lemma EnsuringAgainIff(fold: char -> char, axes: seq<Axis>, name: string, freshId: string, freshId2: string)
    ensures var once := Ensured(fold, axes, name, freshId);
            && EnsuredAxis(fold, axes, name, freshId) in once
            && (Ensured(fold, once, name, freshId2) == once && EnsuredAxis(fold, once, name, freshId2) == EnsuredAxis(fold, axes, name, freshId)
                <==> FindLabel(fold, axes, name).Some? || EqualFold(fold, TrimSpace(name), name))
  {
    var added := NewAxis(axes, name, freshId);
    FindLabelSnoc(fold, axes, added, name);
    FindLabelIsFirst(fold, axes, name);
    var once := axes + [added];
    assert |once + [NewAxis(once, name, freshId2)]| != |once|;
    assert once[|axes|] == added;
  }

  // ----- Cells -----

  predicate Sits(cell: Cell, rowId: string, columnId: string) {
    cell.rowId == rowId && cell.columnId == columnId
  }

  function SitsAt(rowId: string, columnId: string): Cell -> bool {
    (cell: Cell) => Sits(cell, rowId, columnId)
  }

  function SitsElsewhere(rowId: string, columnId: string): Cell -> bool {
    (cell: Cell) => !Sits(cell, rowId, columnId)
  }

  function At(cells: seq<Cell>, rowId: string, columnId: string): seq<Cell> {
    Filter(cells, SitsAt(rowId, columnId))
  }

  function Others(cells: seq<Cell>, rowId: string, columnId: string): seq<Cell> {
    Filter(cells, SitsElsewhere(rowId, columnId))
  }

  function NewCell(freshId: string, matrixId: string, rowId: string, columnId: string, metricKey: string, value: string, runId: string, cardId: string): Cell {
    Cell(freshId, matrixId, rowId, columnId, runId, cardId, "", "", metricKey, value, "", "{}")
  }

  // What the written cell takes over from one cell it replaces.
  function Absorb(cell: Cell, existing: Cell): Cell {
    cell.(id := existing.id, title := existing.title, statement := existing.statement, note := existing.note,
    runId := if cell.runId == "" then existing.runId else cell.runId,
    cardId := if cell.cardId == "" then existing.cardId else cell.cardId,
    data := if existing.data != "" && existing.data != "{}" then existing.data else cell.data)
  }

  function AbsorbAll(cell: Cell, replaced: seq<Cell>): Cell
    decreases |replaced|
  {
    if replaced == [] then cell else AbsorbAll(Absorb(cell, replaced[0]), replaced[1..])
  }

  function Written(cells: seq<Cell>, cell: Cell): Cell {
    AbsorbAll(cell, At(cells, cell.rowId, cell.columnId))
  }

  function Upserted(cells: seq<Cell>, cell: Cell): seq<Cell> {
    Others(cells, cell.rowId, cell.columnId) + [Written(cells, cell)]
  }

  function FirstRun(cells: seq<Cell>): string {
    if cells == [] then "" else if cells[0].runId != "" then cells[0].runId else FirstRun(cells[1..])
  }

  function FirstCard(cells: seq<Cell>): string {
    if cells == [] then "" else if cells[0].cardId != "" then cells[0].cardId else FirstCard(cells[1..])
  }

  function LastData(cells: seq<Cell>): string {
    if cells == [] then "{}"
    else
      var last := cells[|cells| - 1];
      if last.data != "" && last.data != "{}" then last.data else LastData(cells[..|cells| - 1])
  }

  lemma {:induction false} AbsorbAllSnoc(cell: Cell, replaced: seq<Cell>, last: Cell)
    ensures AbsorbAll(cell, replaced + [last]) == Absorb(AbsorbAll(cell, replaced), last)
    decreases |replaced|
  {
    if replaced == [] {
      assert replaced + [last] == [last];
      assert [last][1..] == [];
    } else {
      assert (replaced + [last])[1..] == replaced[1..] + [last];
      AbsorbAllSnoc(Absorb(cell, replaced[0]), replaced[1..], last);
    }
  }

  // Which of the cells it replaces the written cell gets each field from.
  lemma {:induction false} AbsorbedFields(cell: Cell, replaced: seq<Cell>)
    ensures var out := AbsorbAll(cell, replaced);
            && (out.rowId, out.columnId, out.matrixId, out.metricKey, out.metricValue) ==
               (cell.rowId, cell.columnId, cell.matrixId, cell.metricKey, cell.metricValue)
            && (replaced == [] ==> out == cell)
            && (replaced != [] ==> var last := replaced[|replaced| - 1];
                                   (out.id, out.title, out.statement, out.note) == (last.id, last.title, last.statement, last.note))
            && out.runId == (if cell.runId != "" then cell.runId else FirstRun(replaced))
            && out.cardId == (if cell.cardId != "" then cell.cardId else FirstCard(replaced))
    decreases |replaced|
  {
    if replaced != [] {
      AbsorbedFields(Absorb(cell, replaced[0]), replaced[1..]);
    }
  }

  lemma {:induction false} AbsorbedData(cell: Cell, replaced: seq<Cell>)
    requires cell.data == "{}"
    ensures AbsorbAll(cell, replaced).data == LastData(replaced)
    decreases |replaced|
  {
    if replaced != [] {
      var n := |replaced| - 1;
      AbsorbedData(cell, replaced[..n]);
      AbsorbAllSnoc(cell, replaced[..n], replaced[n]);
      assert replaced[..n] + [replaced[n]] == replaced;
    }
  }

  // Afterwards exactly one cell sits at the written position, whatever was there before, and every other position
  // holds the cells it held, in their order.
  lemma ExactlyOneCell(cells: seq<Cell>, cell: Cell, r: string, c: string)
    ensures At(Upserted(cells, cell), r, c) ==
            if (r, c) == (cell.rowId, cell.columnId) then [Written(cells, cell)] else At(cells, r, c)
    ensures Others(Upserted(cells, cell), cell.rowId, cell.columnId) == Others(cells, cell.rowId, cell.columnId)
  {
    var kept, written := Others(cells, cell.rowId, cell.columnId), Written(cells, cell);
    AbsorbedFields(cell, At(cells, cell.rowId, cell.columnId));
    FilterSnoc(kept, written, SitsAt(r, c));
    FilterSnoc(kept, written, SitsElsewhere(cell.rowId, cell.columnId));
    FilterTwice(cells, SitsElsewhere(cell.rowId, cell.columnId), SitsElsewhere(cell.rowId, cell.columnId), SitsElsewhere(cell.rowId, cell.columnId));
    if (r, c) == (cell.rowId, cell.columnId) {
      FilterTwice(cells, SitsElsewhere(r, c), SitsAt(r, c), _ => false);
      FilterNone(cells, _ => false);
    } else {
      FilterTwice(cells, SitsElsewhere(cell.rowId, cell.columnId), SitsAt(r, c), SitsAt(r, c));
    }
  }

  // ----- Looking a cell up -----

  function Underscored(s: string): (t: string)
    ensures |t| == |s| && forall i :: 0 <= i < |s| ==> t[i] == if s[i] == ' ' then '_' else s[i]
  {
    if s == "" then "" else [if s[0] == ' ' then '_' else s[0]] + Underscored(s[1..])
  }

  predicate IsRunIdColumn(fold: char -> char, name: string) {
    EqualFold(fold, Underscored(TrimSpace(name)), "run_id")
  }

  function Shown(fold: char -> char, cell: Cell, columnLabel: string): string {
    if IsRunIdColumn(fold, columnLabel) && cell.runId != "" then cell.runId
    else FirstNonEmpty([cell.metricValue, cell.statement, cell.title, cell.note, cell.runId])
  }

  method CellDisplay(fold: char -> char, cells: seq<Cell>, rowId: string, columnId: string, columnLabel: string) returns (shown: string)
    ensures var sitting := At(cells, rowId, columnId);
            shown == if sitting == [] then "" else Shown(fold, sitting[0], columnLabel)
    ensures shown == Display(fold, cells, rowId, columnId, columnLabel)
  {
    for i := 0 to |cells|
      invariant At(cells, rowId, columnId) == At(cells[i..], rowId, columnId)
    {
      assert cells[i..][1..] == cells[i + 1..];
      if cells[i].rowId == rowId && cells[i].columnId == columnId {
        if IsRunIdColumn(fold, columnLabel) && cells[i].runId != "" {
          return cells[i].runId;
        }
        return FirstNonEmpty([cells[i].metricValue, cells[i].statement, cells[i].title, cells[i].note, cells[i].runId]);
      }
    }
    return "";
  }

  function Display(fold: char -> char, cells: seq<Cell>, rowId: string, columnId: string, columnLabel: string): string {
    var sitting := At(cells, rowId, columnId);
    if sitting == [] then "" else Shown(fold, sitting[0], columnLabel)
  }

  lemma {:induction false} FirstNonEmptyIs(values: seq<string>)
    ensures (forall i :: 0 <= i < |values| ==> IsBlank(values[i])) ==> FirstNonEmpty(values) == ""
    ensures (exists i :: 0 <= i < |values| && !IsBlank(values[i])) ==> !IsBlank(FirstNonEmpty(values)) && FirstNonEmpty(values) in values
  {
    if values != [] {
      FirstNonEmptyIs(values[1..]);
      assert forall i :: 1 <= i < |values| ==> values[i] == values[1..][i - 1];
    }
  }

  // The lookup shows the value just written, unless a run id column shows another run instead, or the value is blank
  // and something else stands in for it.
  lemma DisplayShowsWrittenIff(fold: char -> char, cells: seq<Cell>, cell: Cell, columnLabel: string)
    ensures var written := Written(cells, cell);
            Display(fold, Upserted(cells, cell), cell.rowId, cell.columnId, columnLabel) == cell.metricValue <==>
            if IsRunIdColumn(fold, columnLabel) && written.runId != "" then written.runId == cell.metricValue
            else !IsBlank(cell.metricValue)
                 || (cell.metricValue == "" && IsBlank(written.statement) && IsBlank(written.title) && IsBlank(written.note) && IsBlank(written.runId))
  {
    ExactlyOneCell(cells, cell, cell.rowId, cell.columnId);
    AbsorbedFields(cell, At(cells, cell.rowId, cell.columnId));
    var written := Written(cells, cell);
    var rest := [written.statement, written.title, written.note, written.runId];
    assert [written.metricValue, written.statement, written.title, written.note, written.runId][1..] == rest;
    FirstNonEmptyIs(rest);
    assert IsBlank("");
    if IsBlank(cell.metricValue) && !(IsBlank(written.statement) && IsBlank(written.title) && IsBlank(written.note) && IsBlank(written.runId)) {
      assert !IsBlank(rest[0]) || !IsBlank(rest[1]) || !IsBlank(rest[2]) || !IsBlank(rest[3]);
    } else if IsBlank(cell.metricValue) {
      assert forall i :: 0 <= i < |rest| ==> IsBlank(rest[i]);
    }
  }

  // ----- The set command -----

  // Whether a run exists, or the store's error.
  type RunLookup = string -> Result<bool, string>

  datatype SetRequest = SetRequest(rowName: string, columnName: string, value: string, runId: string, cardId: string)

  datatype SetError = LabelsRequired | ValueRequired | RunUnknown(id: string) | StoreError(error: string)

  function Trimmed(request: SetRequest): SetRequest {
    SetRequest(TrimSpace(request.rowName), TrimSpace(request.columnName), TrimSpace(request.value), TrimSpace(request.runId), TrimSpace(request.cardId))
  }

  // A value put into a run id column is a run; a run known by itself is its own value and brings its card.
  function Resolve(fold: char -> char, request: SetRequest, runs: RunLookup, cards: string -> Option<string>): Result<SetRequest, SetError> {
    var t := Trimmed(request);
    if t.rowName == "" || t.columnName == "" then Err(LabelsRequired)
    else if t.value == "" && t.runId == "" then Err(ValueRequired)
    else
      var runColumn := IsRunIdColumn(fold, t.columnName);
      var run := if t.runId == "" && runColumn then t.value else t.runId;
      if run == "" then Ok(t)
      else
        match runs(run)
        case Err(error) => Err(StoreError(error))
        case Ok(false) => Err(RunUnknown(run))
        case Ok(true) =>
          Ok(t.(runId := run,
             value := if t.value == "" || runColumn then run else t.value,
             cardId := if t.cardId != "" then t.cardId else match cards(run) case Some(card) => card case None => ""))
  }

  datatype FreshIds = FreshIds(row: string, column: string, cell: string)

  function RequestedCell(fold: char -> char, grid: GridValue, matrixId: string, r: SetRequest, ids: FreshIds): Cell {
    var column := EnsuredAxis(fold, grid.columns, r.columnName, ids.column);
    NewCell(ids.cell, matrixId, EnsuredAxis(fold, grid.rows, r.rowName, ids.row).id, column.id, column.name, r.value, r.runId, r.cardId)
  }

  function AfterSet(fold: char -> char, grid: GridValue, matrixId: string, r: SetRequest, ids: FreshIds): GridValue {
    GridValue(
      Ensured(fold, grid.rows, r.rowName, ids.row),
      Ensured(fold, grid.columns, r.columnName, ids.column),
      Upserted(grid.cells, RequestedCell(fold, grid, matrixId, r, ids)))
  }

  lemma ResolvedMeans(fold: char -> char, request: SetRequest, runs: RunLookup, cards: string -> Option<string>)
    requires Resolve(fold, request, runs, cards).Ok?
    ensures var r := Resolve(fold, request, runs, cards).value;
            && TrimSpace(r.rowName) == r.rowName != "" && TrimSpace(r.columnName) == r.columnName != ""
            && !IsBlank(r.value)
            && (r.runId == "" || (TrimSpace(r.runId) == r.runId && runs(r.runId) == Ok(true)))
            && (IsRunIdColumn(fold, r.columnName) ==> r.runId == r.value)
  {
    TrimmedStaysTrimmed(request.rowName);
    TrimmedStaysTrimmed(request.columnName);
    TrimmedStaysTrimmed(request.value);
    TrimmedStaysTrimmed(request.runId);
  }

  // Two labels equal up to case are run id columns alike, as long as only the space folds to the space.
  lemma RunIdColumnFolds(fold: char -> char, a: string, b: string)
    requires forall c :: fold(c) == fold(' ') ==> c == ' '
    requires EqualFold(fold, TrimSpace(a), b) && TrimSpace(b) == b
    ensures IsRunIdColumn(fold, a) <==> IsRunIdColumn(fold, b)
  {
    var x, y := Underscored(TrimSpace(a)), Underscored(b);
    assert |x| == |y|;
    forall i | 0 <= i < |x|
      ensures fold(x[i]) == fold(y[i])
    {
      assert fold(TrimSpace(a)[i]) == fold(b[i]);
    }
  }

  // What the command was asked to write is what the table then shows at that row and column, in every grid.
  lemma SetThenShows(fold: char -> char, grid: GridValue, matrixId: string, request: SetRequest, ids: FreshIds, runs: RunLookup, cards: string -> Option<string>)
    requires forall c :: fold(c) == fold(' ') ==> c == ' '
    requires Resolve(fold, request, runs, cards).Ok?
    ensures var r := Resolve(fold, request, runs, cards).value;
            var row := EnsuredAxis(fold, grid.rows, r.rowName, ids.row);
            var column := EnsuredAxis(fold, grid.columns, r.columnName, ids.column);
            Display(fold, AfterSet(fold, grid, matrixId, r, ids).cells, row.id, column.id, column.name) == r.value
  {
    var r := Resolve(fold, request, runs, cards).value;
    var cell := RequestedCell(fold, grid, matrixId, r, ids);
    var column := EnsuredAxis(fold, grid.columns, r.columnName, ids.column);
    ResolvedMeans(fold, request, runs, cards);
    FindLabelIsFirst(fold, grid.columns, r.columnName);
    RunIdColumnFolds(fold, column.name, r.columnName);
    AbsorbedFields(cell, At(grid.cells, cell.rowId, cell.columnId));
    DisplayShowsWrittenIff(fold, grid.cells, cell, column.name);
  }

  // ----- What the set command does, told from the request -----

  // A run id column is one whose trimmed label folds to run_id, with a blank standing for an underscore.
  lemma RunIdColumnIff(fold: char -> char, name: string)
    ensures IsRunIdColumn(fold, name) <==>
            && |TrimSpace(name)| == 6
            && forall i :: 0 <= i < 6 ==> fold(if TrimSpace(name)[i] == ' ' then '_' else TrimSpace(name)[i]) == fold("run_id"[i])
  {
    var t := TrimSpace(name);
    assert |Underscored(t)| == |t| && forall i :: 0 <= i < |t| ==> Underscored(t)[i] == if t[i] == ' ' then '_' else t[i];
  }

  // What a cell shows: its run in a run id column, otherwise the first of value, statement, title, note and run that is
  // not blank.
  lemma ShownMeans(fold: char -> char, cell: Cell, columnLabel: string)
    ensures Shown(fold, cell, columnLabel) ==
            if IsRunIdColumn(fold, columnLabel) && cell.runId != "" then cell.runId
            else if !IsBlank(cell.metricValue) then cell.metricValue
            else if !IsBlank(cell.statement) then cell.statement
            else if !IsBlank(cell.title) then cell.title
            else if !IsBlank(cell.note) then cell.note
            else if !IsBlank(cell.runId) then cell.runId
            else ""
  {
    var a, b, c, d, e := cell.metricValue, cell.statement, cell.title, cell.note, cell.runId;
    assert FirstNonEmpty([e]) == if !IsBlank(e) then e else "";
    assert [d, e][1..] == [e] && FirstNonEmpty([d, e]) == if !IsBlank(d) then d else FirstNonEmpty([e]);
    assert [c, d, e][1..] == [d, e] && FirstNonEmpty([c, d, e]) == if !IsBlank(c) then c else FirstNonEmpty([d, e]);
    assert [b, c, d, e][1..] == [c, d, e] && FirstNonEmpty([b, c, d, e]) == if !IsBlank(b) then b else FirstNonEmpty([c, d, e]);
    assert [a, b, c, d, e][1..] == [b, c, d, e];
  }

  // The entry a label asks for: the first whose trimmed label matches up to case, or a new last one with that label.
  ghost predicate AxisAsked(fold: char -> char, before: seq<Axis>, after: seq<Axis>, name: string, freshId: string, axis: Axis) {
    if exists i :: 0 <= i < |before| && EqualFold(fold, TrimSpace(before[i].name), name) then
      && after == before
      && exists i :: && 0 <= i < |before| && before[i] == axis && EqualFold(fold, TrimSpace(before[i].name), name)
                     && forall j :: 0 <= j < i ==> !EqualFold(fold, TrimSpace(before[j].name), name)
    else after == before + [axis] && axis == Axis(freshId, "", name, |before|, "{}")
  }

  // The cell written: at the row and column asked for, with the value, and the run and card asked for or else the first
  // of what it replaces; id and texts are those of the last cell replaced, data that of the last with any. It takes the
  // place of whatever was there, and every other cell stays.
  ghost predicate CellAsked(before: seq<Cell>, after: seq<Cell>, matrixId: string, row: Axis, column: Axis, value: string, run: string, card: string, freshId: string, cell: Cell) {
    && (cell.matrixId, cell.rowId, cell.columnId, cell.metricKey, cell.metricValue) == (matrixId, row.id, column.id, column.name, value)
    && (run != "" ==> cell.runId == run)
    && (card != "" ==> cell.cardId == card)
    && (run == "" ==> cell.runId == FirstRun(At(before, row.id, column.id)))
    && (card == "" ==> cell.cardId == FirstCard(At(before, row.id, column.id)))
    && after == Filter(before, (c: Cell) => c.rowId != row.id || c.columnId != column.id) + [cell]
    && var replaced := Filter(before, (c: Cell) => c.rowId == row.id && c.columnId == column.id);
       && (replaced == [] ==> (cell.id, cell.title, cell.statement, cell.note, cell.data) == (freshId, "", "", "", "{}"))
       && (replaced != [] ==> var last := replaced[|replaced| - 1];
                              (cell.id, cell.title, cell.statement, cell.note) == (last.id, last.title, last.statement, last.note))
       && cell.data == LastData(replaced)
  }

  ghost predicate WrittenAsAsked(fold: char -> char, before: GridValue, matrixId: string, rowName: string, columnName: string, value: string, run: string, card: string,
                           ids: FreshIds, after: GridValue, cell: Cell, row: Axis, column: Axis) {
    && AxisAsked(fold, before.rows, after.rows, rowName, ids.row, row)
    && AxisAsked(fold, before.columns, after.columns, columnName, ids.column, column)
    && CellAsked(before.cells, after.cells, matrixId, row, column, value, run, card, ids.cell, cell)
    && Display(fold, after.cells, row.id, column.id, column.name) == value
  }

  // Which request is refused for what, and otherwise what it comes to. The value is the run when none is given or the
  // column holds runs; the card of a run is looked up when none is given.
  ghost predicate Asks(fold: char -> char, request: SetRequest, runs: RunLookup, cards: string -> Option<string>, resolved: Result<SetRequest, SetError>) {
    var rowName, columnName, value := TrimSpace(request.rowName), TrimSpace(request.columnName), TrimSpace(request.value);
    var runId, cardId := TrimSpace(request.runId), TrimSpace(request.cardId);
    var runColumn := IsRunIdColumn(fold, columnName);
    var run := if runId != "" then runId else if runColumn then value else "";
    var lookedUp := runs(run);
    if rowName == "" || columnName == "" then resolved == Err(LabelsRequired)
    else if value == "" && runId == "" then resolved == Err(ValueRequired)
    else if run == "" then resolved == Ok(SetRequest(rowName, columnName, value, "", cardId))
    else if lookedUp.Err? then resolved == Err(StoreError(lookedUp.error))
    else if !lookedUp.value then resolved == Err(RunUnknown(run))
    else
      && resolved.Ok? && resolved.value.rowName == rowName && resolved.value.columnName == columnName
      && resolved.value.runId == run && resolved.value.value == (if value == "" || runColumn then run else value)
      && resolved.value.cardId == (if cardId != "" then cardId else if cards(run).Some? then cards(run).value else "")
  }

  lemma ResolveAsks(fold: char -> char, request: SetRequest, runs: RunLookup, cards: string -> Option<string>)
    ensures Asks(fold, request, runs, cards, Resolve(fold, request, runs, cards))
  {
  }

  // What a request does: nothing when it is refused; otherwise its value goes to the row and column asked for.
  ghost predicate SetDoes(fold: char -> char, before: GridValue, matrixId: string, request: SetRequest, ids: FreshIds, runs: RunLookup, cards: string -> Option<string>,
                          after: GridValue, outcome: Result<Cell, SetError>) {
    exists resolved ::
      && Asks(fold, request, runs, cards, resolved)
      && match resolved
         case Err(error) => outcome == Err(error) && after == before
         case Ok(r) =>
           && outcome.Ok?
           && exists row, column :: WrittenAsAsked(fold, before, matrixId, r.rowName, r.columnName, r.value, r.runId, r.cardId, ids, after, outcome.value, row, column)
  }

  lemma EnsuredIsAsked(fold: char -> char, axes: seq<Axis>, name: string, freshId: string)
    ensures AxisAsked(fold, axes, Ensured(fold, axes, name, freshId), name, freshId, EnsuredAxis(fold, axes, name, freshId))
  {
    FindLabelIsFirst(fold, axes, name);
  }

  // The set command does what the request asks.
  lemma SetMeans(fold: char -> char, grid: GridValue, matrixId: string, request: SetRequest, ids: FreshIds, runs: RunLookup, cards: string -> Option<string>,
                 after: GridValue, outcome: Result<Cell, SetError>)
    requires forall c :: fold(c) == fold(' ') ==> c == ' '
    requires match Resolve(fold, request, runs, cards)
             case Err(error) => outcome == Err(error) && after == grid
             case Ok(r) => after == AfterSet(fold, grid, matrixId, r, ids) && outcome == Ok(Written(grid.cells, RequestedCell(fold, grid, matrixId, r, ids)))
    ensures SetDoes(fold, grid, matrixId, request, ids, runs, cards, after, outcome)
  {
    ResolveAsks(fold, request, runs, cards);
    match Resolve(fold, request, runs, cards)
    case Err(_) =>
    case Ok(r) => GotThroughMeans(fold, grid, matrixId, request, ids, runs, cards, r, after, outcome.value);
  }

  lemma GotThroughMeans(fold: char -> char, grid: GridValue, matrixId: string, request: SetRequest, ids: FreshIds, runs: RunLookup, cards: string -> Option<string>,
                        r: SetRequest, after: GridValue, cell: Cell)
    requires forall c :: fold(c) == fold(' ') ==> c == ' '
    requires Resolve(fold, request, runs, cards) == Ok(r)
    requires after == AfterSet(fold, grid, matrixId, r, ids) && cell == Written(grid.cells, RequestedCell(fold, grid, matrixId, r, ids))
    ensures exists row, column :: WrittenAsAsked(fold, grid, matrixId, r.rowName, r.columnName, r.value, r.runId, r.cardId, ids, after, cell, row, column)
  {
    var row, column := EnsuredAxis(fold, grid.rows, r.rowName, ids.row), EnsuredAxis(fold, grid.columns, r.columnName, ids.column);
    EnsuredIsAsked(fold, grid.rows, r.rowName, ids.row);
    EnsuredIsAsked(fold, grid.columns, r.columnName, ids.column);
    SetThenShows(fold, grid, matrixId, request, ids, runs, cards);
    RequestedIsAsked(grid.cells, matrixId, row, column, r, ids.cell);
    assert WrittenAsAsked(fold, grid, matrixId, r.rowName, r.columnName, r.value, r.runId, r.cardId, ids, after, cell, row, column);
  }

  lemma RequestedIsAsked(cells: seq<Cell>, matrixId: string, row: Axis, column: Axis, r: SetRequest, freshId: string)
    ensures var asked := NewCell(freshId, matrixId, row.id, column.id, column.name, r.value, r.runId, r.cardId);
            CellAsked(cells, Upserted(cells, asked), matrixId, row, column, r.value, r.runId, r.cardId, freshId, Written(cells, asked))
  {
    var asked := NewCell(freshId, matrixId, row.id, column.id, column.name, r.value, r.runId, r.cardId);
    AbsorbedFields(asked, At(cells, row.id, column.id));
    AbsorbedData(asked, At(cells, row.id, column.id));
    FilterSame(cells, SitsAt(row.id, column.id), (c: Cell) => c.rowId == row.id && c.columnId == column.id);
    FilterSame(cells, SitsElsewhere(row.id, column.id), (c: Cell) => c.rowId != row.id || c.columnId != column.id);
  }
}
