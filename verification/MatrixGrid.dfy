/** An experiment matrix grid in memory: the edits and the check, in place. */
module MatrixGrid {
  import opened Outcomes
  import opened Text
  import opened Seqs
  import opened Matrix
  import opened MatrixCheck

  // Cells are the first size elements of the backing array of a slice.
  class Grid {
    var rows: seq<Axis>
    var columns: seq<Axis>
    var buffer: array<Cell>
    var size: nat

    constructor (rows: seq<Axis>, columns: seq<Axis>, buffer: array<Cell>, size: nat)
      requires size <= buffer.Length
      ensures Valid() && Value() == GridValue(rows, columns, buffer[..size]) && this.buffer == buffer
    {
      this.rows, this.columns, this.buffer, this.size := rows, columns, buffer, size;
    }

    ghost predicate Valid()
      reads this
    {
      size <= buffer.Length
    }

    ghost function Value(): GridValue
      reads this, buffer
      requires Valid()
    {
      GridValue(rows, columns, buffer[..size])
    }

    method EnsureRow(fold: char -> char, name: string, freshId: string) returns (row: Axis)
      modifies this`rows
      ensures rows == Ensured(fold, old(rows), name, freshId) && row == EnsuredAxis(fold, old(rows), name, freshId)
    {
      for i := 0 to |rows|
        invariant rows == old(rows) && FindLabel(fold, rows, name) == FindLabel(fold, rows[i..], name)
      {
        assert rows[i..][1..] == rows[i + 1..];
        if EqualFold(fold, TrimSpace(rows[i].name), name) {
          return rows[i];
        }
      }
      row := Axis(freshId, "", name, |rows|, "{}");
      rows := rows + [row];
    }

    method EnsureColumn(fold: char -> char, name: string, freshId: string) returns (column: Axis)
      modifies this`columns
      ensures columns == Ensured(fold, old(columns), name, freshId) && column == EnsuredAxis(fold, old(columns), name, freshId)
    {
      for i := 0 to |columns|
        invariant columns == old(columns) && FindLabel(fold, columns, name) == FindLabel(fold, columns[i..], name)
      {
        assert columns[i..][1..] == columns[i + 1..];
        if EqualFold(fold, TrimSpace(columns[i].name), name) {
          return columns[i];
        }
      }
      column := Axis(freshId, "", name, |columns|, "{}");
      columns := columns + [column];
    }

    // The slice kept starts empty on the array being read, so kept cells are written over ones already read.
    method UpsertCell(freshId: string, matrixId: string, rowId: string, columnId: string, metricKey: string, value: string, runId: string, cardId: string)
      returns (cell: Cell)
      requires Valid()
      modifies this`buffer, this`size, buffer
      ensures Valid() && (buffer == old(buffer) || fresh(buffer))
      ensures var before, asked := old(buffer[..size]), NewCell(freshId, matrixId, rowId, columnId, metricKey, value, runId, cardId);
              cell == Written(before, asked) && buffer[..size] == Upserted(before, asked)
    {
      var asked := Cell(freshId, matrixId, rowId, columnId, runId, cardId, "", "", metricKey, value, "", "{}");
      var kept;
      cell, kept := Filter(asked);
      Append(kept, cell);
    }

    method Filter(asked: Cell) returns (cell: Cell, kept: nat)
      requires Valid()
      modifies buffer
      ensures kept <= size && cell == Written(old(buffer[..size]), asked)
      ensures buffer[..kept] == Others(old(buffer[..size]), asked.rowId, asked.columnId)
    {
      ghost var before := buffer[..size];
      cell, kept := asked, 0;
      for i := 0 to size
        invariant kept <= i
        invariant forall j :: i <= j < size ==> buffer[j] == before[j]
        invariant buffer[..kept] == Others(before[..i], asked.rowId, asked.columnId)
        invariant cell == AbsorbAll(asked, At(before[..i], asked.rowId, asked.columnId))
      {
        var existing := buffer[i];
        FilterStep(before, i, asked);
        if existing.rowId == asked.rowId && existing.columnId == asked.columnId {
          cell := Absorb(cell, existing);
        } else {
          buffer[kept] := existing;
          assert buffer[..kept + 1] == buffer[..kept] + [existing];
          kept := kept + 1;
        }
      }
      assert before[..size] == before;
    }

    // append: in place while there is room, otherwise into a larger array.
    method Append(kept: nat, cell: Cell)
      requires Valid() && kept <= size
      modifies this`buffer, this`size, buffer
      ensures Valid() && (buffer == old(buffer) || fresh(buffer))
      ensures buffer[..size] == old(buffer[..kept]) + [cell]
    {
      if kept < buffer.Length {
        buffer[kept] := cell;
      } else {
        var larger := new Cell[2 * kept + 1](_ => cell);
        for i := 0 to kept
          invariant fresh(larger) && larger.Length == 2 * kept + 1 && larger[kept] == cell
          invariant buffer == old(buffer) && buffer[..] == old(buffer[..]) && kept == buffer.Length
          invariant larger[..i] == buffer[..i]
        {
          larger[i] := buffer[i];
        }
        buffer := larger;
      }
      size := kept + 1;
    }

    // Every part is rewritten before it is checked, so after a fault some parts are rewritten and the rest are not.
    method Validate(matrixId: string, runs: RunLookup) returns (fault: Option<Fault>)
      requires Valid()
      modifies this`rows, this`columns, buffer
      ensures Valid() && fault == Check(old(Value()), runs)
      ensures fault.None? ==> Value() == Normalized(old(Value()), matrixId)
      ensures fault.Some? ==> PartlyNormal(old(Value()), Value(), matrixId)
    {
      var rowIds, columnIds;
      rows, rowIds, fault := ValidateAxes(RowPart, rows, matrixId);
      if fault.Some? {
        return;
      }
      columns, columnIds, fault := ValidateAxes(ColumnPart, columns, matrixId);
      if fault.Some? {
        return;
      }
      fault := ValidateCells(matrixId, rowIds, columnIds, runs);
    }

    method ValidateCells(matrixId: string, rowIds: set<string>, columnIds: set<string>, runs: RunLookup) returns (fault: Option<Fault>)
      requires Valid()
      modifies buffer
      ensures fault == FirstFault(old(buffer[..size]), CellKey, CellRule(rowIds, columnIds, runs), {})
      ensures fault.None? ==> buffer[..size] == Mapped(old(buffer[..size]), CellNormalizer(matrixId))
      ensures PartMapped(old(buffer[..size]), buffer[..size], CellNormalizer(matrixId))
    {
      ghost var before := buffer[..size];
      ghost var rule := CellRule(rowIds, columnIds, runs);
      var cellIds: set<string> := {};
      fault := None;
      assert before[0..] == before && before[..size] == before;
      for i := 0 to size
        invariant MappedUpTo(before, buffer[..size], i, CellNormalizer(matrixId))
        invariant fault == None && cellIds == Keys(before[..i], CellKey)
        invariant FirstFault(before[i..], CellKey, rule, cellIds) == FirstFault(before, CellKey, rule, {})
      {
        FirstFaultStep(before, i, CellKey, rule, cellIds);
        ghost var now := buffer[..size];
        buffer[i] := NormalCell(buffer[i], matrixId);
        MappedOneMore(before, now, buffer[..size], i, CellNormalizer(matrixId));
        var cell := buffer[i];
        fault := CellFault(cell.id, cell.rowId, cell.columnId, cell.runId, rowIds, columnIds, runs, cellIds);
        if fault.Some? {
          return;
        }
        cellIds := cellIds + {cell.id};
      }
    }

    method Set(fold: char -> char, matrixId: string, request: SetRequest, ids: FreshIds, runs: RunLookup, cards: string -> Option<string>)
      returns (outcome: Result<Cell, SetError>)
      requires Valid()
      modifies this, buffer
      ensures Valid() && (buffer == old(buffer) || fresh(buffer))
      ensures match Resolve(fold, request, runs, cards)
              case Err(error) => outcome == Err(error) && Value() == old(Value())
              case Ok(r) =>
                && Value() == AfterSet(fold, old(Value()), matrixId, r, ids)
                && outcome == Ok(Written(old(Value()).cells, RequestedCell(fold, old(Value()), matrixId, r, ids)))
      ensures (forall c :: fold(c) == fold(' ') ==> c == ' ') ==>
                SetDoes(fold, old(Value()), matrixId, request, ids, runs, cards, Value(), outcome)
    {
      ghost var before := Value();
      match Resolve(fold, request, runs, cards) {
        case Err(error) =>
          outcome := Err(error);
        case Ok(r) =>
          var row := EnsureRow(fold, r.rowName, ids.row);
          var column := EnsureColumn(fold, r.columnName, ids.column);
          var cell := UpsertCell(ids.cell, matrixId, row.id, column.id, column.name, r.value, r.runId, r.cardId);
          outcome := Ok(cell);
      }
      if forall c :: fold(c) == fold(' ') ==> c == ' ' {
        SetMeans(fold, before, matrixId, request, ids, runs, cards, Value(), outcome);
      }
    }
  }

  ghost predicate MappedUpTo<X>(before: seq<X>, now: seq<X>, i: nat, f: X -> X) {
    |now| == |before| && forall j :: 0 <= j < |before| ==> now[j] == if j < i then f(before[j]) else before[j]
  }

  lemma MappedOneMore<X>(before: seq<X>, now: seq<X>, next: seq<X>, i: nat, f: X -> X)
    requires MappedUpTo(before, now, i, f) && i < |before| && next == now[i := f(now[i])]
    ensures MappedUpTo(before, next, i + 1, f) && now[i] == before[i] && PartMapped(before, next, f)
    ensures i + 1 == |before| ==> next == Mapped(before, f)
  {
  }

  ghost predicate PartMapped<X>(before: seq<X>, now: seq<X>, f: X -> X) {
    |now| == |before| && forall i :: 0 <= i < |before| ==> now[i] == before[i] || now[i] == f(before[i])
  }

  ghost predicate PartlyNormal(before: GridValue, now: GridValue, matrixId: string) {
    && PartMapped(before.rows, now.rows, AxisNormalizer(matrixId))
    && PartMapped(before.columns, now.columns, AxisNormalizer(matrixId))
    && PartMapped(before.cells, now.cells, CellNormalizer(matrixId))
  }

  method ValidateAxes(part: Part, axes: seq<Axis>, matrixId: string) returns (axes': seq<Axis>, ids: set<string>, fault: Option<Fault>)
    ensures fault == CheckAxes(part, axes)
    ensures fault.None? ==> axes' == Mapped(axes, AxisNormalizer(matrixId)) && ids == AxisIds(axes)
    ensures PartMapped(axes, axes', AxisNormalizer(matrixId))
  {
    axes', ids, fault := axes, {}, None;
    assert axes[0..] == axes && axes[..|axes|] == axes;
    for i := 0 to |axes|
      invariant MappedUpTo(axes, axes', i, AxisNormalizer(matrixId))
      invariant fault == None && ids == Keys(axes[..i], AxisKey)
      invariant FirstFault(axes[i..], AxisKey, AxisRule(part), ids) == FirstFault(axes, AxisKey, AxisRule(part), {})
    {
      FirstFaultStep(axes, i, AxisKey, AxisRule(part), ids);
      var axis := NormalAxis(axes'[i], matrixId);
      axes' := axes'[i := axis];
      fault := AxisFault(part, axis.id, axis.name, ids);
      if fault.Some? {
        return;
      }
      ids := ids + {axis.id};
    }
  }

  lemma FilterStep(before: seq<Cell>, i: nat, asked: Cell)
    requires i < |before|
    ensures var x, others, sitting := before[i], Others(before[..i], asked.rowId, asked.columnId), At(before[..i], asked.rowId, asked.columnId);
            if Sits(x, asked.rowId, asked.columnId) then
              && Others(before[..i + 1], asked.rowId, asked.columnId) == others
              && AbsorbAll(asked, At(before[..i + 1], asked.rowId, asked.columnId)) == Absorb(AbsorbAll(asked, sitting), x)
            else
              && Others(before[..i + 1], asked.rowId, asked.columnId) == others + [x]
              && At(before[..i + 1], asked.rowId, asked.columnId) == sitting
  {
    FilterPrefix(before, i, SitsElsewhere(asked.rowId, asked.columnId));
    FilterPrefix(before, i, SitsAt(asked.rowId, asked.columnId));
    AbsorbAllSnoc(asked, At(before[..i], asked.rowId, asked.columnId), before[i]);
  }
}
