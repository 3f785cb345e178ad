/** The statement handle: a cursor whose position and overlay are updated in place. */
module StatementHandle {
  import opened Blocks
  import opened CtidTable
  import opened CursorModel
  import opened CursorRollback
  import opened Options

  datatype RowStatus = RowSuccess | RowSuccessWithInfo | RowNoRow

  // The values of the delivered rows, as the cursor shows them.
  ghost predicate DeliversRows(c: Cursor, outcome: FetchResult, delivered: seq<Row>)
    requires c.WellFormed()
  {
    if outcome.Rowset? then
      && |delivered| == |outcome.rows|
      && forall k :: 0 <= k < |outcome.rows| ==>
           outcome.rows[k] < |c.base| && delivered[k] == c.PublicRow(outcome.rows[k])
    else delivered == []
  }

  class Statement {
    const result: seq<Row>
    const publicColumns: nat
    const forwardOnly: bool
    const updatable: bool
    var useBookmarks: bool
    var keysetRows: array<KeysetRow>
    var currentRowPosition: int
    var keysetRowsetFirstRow: int
    var keysetRowsetSize: int
    var rowArraySize: nat
    var columnBindings: seq<Binding>
    var server: Table
    var keysetSavepoints: seq<KeysetSavepoint>
    var rowsFetched: nat                   // SQL_ATTR_ROWS_FETCHED_PTR
    const rowStatus: array<RowStatus>      // SQL_ATTR_ROW_STATUS_PTR, as long as the application made it

    // The application supplies a status for every row of a rowset.
    predicate StatusFits()
      reads this
    {
      1 <= rowStatus.Length && rowArraySize <= rowStatus.Length
    }

    // The first rows were fetched, the others of the rowset were not.
    twostate predicate Marked(count: nat)
      reads this, rowStatus
    {
      && count <= rowStatus.Length && StatusFits()
      && (forall k :: 0 <= k < count ==> rowStatus[k] == RowSuccess)
      && (forall k :: count <= k < rowArraySize ==> rowStatus[k] == RowNoRow)
      && (forall k :: count <= k < rowStatus.Length && rowArraySize <= k ==> rowStatus[k] == old(rowStatus[k]))
    }

    ghost function View(): Cursor
      reads this, keysetRows
    {
      Cursor(result, publicColumns, forwardOnly, updatable, useBookmarks, keysetRows[..], currentRowPosition,
             keysetRowsetFirstRow, keysetRowsetSize, rowArraySize, columnBindings, server)
    }

    // An updatable cursor right after its SELECT was executed.
    constructor Open(base: seq<Row>, publicColumns: nat, rowArraySize: nat, table: Table, rowStatus: array<RowStatus>)
      ensures fresh(keysetRows) && this.rowStatus == rowStatus
      ensures View() == Opened(base, publicColumns, rowArraySize, table)
    {
      result, this.publicColumns, forwardOnly, updatable := base, publicColumns, false, true;
      useBookmarks, currentRowPosition, keysetRowsetFirstRow, keysetRowsetSize := false, -1, -1, 0;
      this.rowArraySize, columnBindings, server := rowArraySize, [], table;
      keysetRows := new KeysetRow[|base|](_ => KeysetRow(false, None));
      keysetSavepoints, rowsFetched, this.rowStatus := [], 0, rowStatus;
    }

    // ---- Positioned operations ----

    // With an agreeing overlay the ctid of a row names where the row lives now, or nothing once it
    // is deleted, and no other live row lives there.
    method KeysetRowCtid(baseRow: int) returns (ctid: Option<string>)
      requires View().WellFormed()
      ensures ctid == View().RowCtid(baseRow)
      ensures View().Agrees() && 0 <= baseRow < |result| ==>
                && ctid.Some? && (ctid.value in server.rows <==> !View().Deleted(baseRow))
                && (!View().Deleted(baseRow) ==> server.rows[ctid.value] == View().PublicRow(baseRow))
                && forall k :: 0 <= k < |result| && k != baseRow && !View().Deleted(k) ==> View().RowCtid(k) != ctid
    {
      if View().Agrees() && 0 <= baseRow < |result| {
        CtidIsUnique(View(), baseRow);
      }
      if baseRow < 0 || baseRow >= |result| {
        return None;
      }
      var row := keysetRows[baseRow];
      if row.overrideValues.Some? && row.overrideValues.value[publicColumns].Text? {
        return Some(row.overrideValues.value[publicColumns].text);
      }
      if result[baseRow][publicColumns].Null? {
        return None;
      }
      return Some(result[baseRow][publicColumns].text);
    }

    method KeysetStoreRowOverlay(baseRow: nat, source: Row)
      requires View().WellFormed() && baseRow < keysetRows.Length
      modifies keysetRows
      ensures View() == old(View()).WithOverlay(baseRow, View().Fit(source))
    {
      var values := new Value[publicColumns + 1](_ => Null);
      var column := 0;
      while column < publicColumns + 1 && column < |source|
        invariant 0 <= column <= publicColumns + 1 && column <= |source|
        invariant values[..column] == source[..column]
        invariant forall k :: column <= k < values.Length ==> values[k] == Null
        invariant keysetRows[..] == old(keysetRows[..])
      {
        values[column] := source[column];
        column := column + 1;
      }
      assert values[..] == View().Fit(source);
      keysetRows[baseRow] := keysetRows[baseRow].(overrideValues := Some(values[..]));
    }

    // The SET list of a positioned UPDATE.
    method CollectAssignments() returns (assignments: seq<Assignment>)
      ensures assignments == Assignments(columnBindings, publicColumns)
    {
      hide Assignments;
      assignments := [];
      var slot := 0;
      assert columnBindings[0..] == columnBindings;
      while slot < |columnBindings|
        invariant 0 <= slot <= |columnBindings|
        invariant assignments + Assignments(columnBindings[slot..], publicColumns)
                  == Assignments(columnBindings, publicColumns)
      {
        AssignmentsFrom(columnBindings, slot, publicColumns);
        var binding := columnBindings[slot];
        slot := slot + 1;
        if !binding.isBound {
          continue;
        }
        var columnIndex := binding.columnNumber - 1;
        if columnIndex < 0 || columnIndex >= publicColumns {
          continue;
        }
        if binding.ignored {
          continue;
        }
        assignments := assignments + [Assignment(columnIndex, binding.value)];
      }
      NoAssignments(columnBindings[slot..], publicColumns);
    }

    method KeysetPositionedUpdate(baseRow: nat, reply: Reply) returns (outcome: SetPosResult)
      requires View().WellFormed() && baseRow < keysetRows.Length
      modifies this`server, keysetRows
      ensures (View(), outcome) == old(View()).PositionedUpdate(baseRow, reply)
    {
      var ctid := KeysetRowCtid(baseRow);
      if ctid.None? {
        return Failed("HY000");
      }
      var assignments := CollectAssignments();
      if assignments == [] {
        return Done;
      }
      if reply.refused {
        return Failed("HY000");
      }
      if ctid.value in server.rows {
        var returned := Assign(server.rows[ctid.value], assignments) + [Text(reply.newCtid)];
        server := Update(server, ctid.value, assignments, reply.newCtid);
        KeysetStoreRowOverlay(baseRow, returned);
      }
      return Done;
    }

    method KeysetPositionedDelete(baseRow: nat, reply: Reply) returns (outcome: SetPosResult)
      requires View().WellFormed() && baseRow < keysetRows.Length
      modifies this`server, keysetRows
      ensures (View(), outcome) == old(View()).PositionedDelete(baseRow, reply)
    {
      var ctid := KeysetRowCtid(baseRow);
      if ctid.Some? {
        if reply.refused {
          return Failed("HY000");
        }
        server := Delete(server, ctid.value);
      }
      keysetRows[baseRow] := keysetRows[baseRow].(deleted := true);
      return Done;
    }

    // The values of one row as the application reads them: those of the server while the row is live.
    method RowValues(row: nat) returns (values: Row)
      requires View().WellFormed() && row < |result|
      ensures values == View().PublicRow(row)
      ensures View().Agrees() && !View().Deleted(row) ==>
                && View().RowCtid(row).Some? && View().RowCtid(row).value in server.rows
                && values == server.rows[View().RowCtid(row).value]
    {
      assert View().Agrees() ==> View().RowAgrees(row);
      var override := keysetRows[row].overrideValues;
      if override.Some? {
        return override.value[..publicColumns];
      }
      return result[row][..publicColumns];
    }

    method KeysetPositionedRefresh(baseRow: nat) returns (values: Row)
      requires View().WellFormed() && baseRow < keysetRows.Length
      modifies this`currentRowPosition
      ensures View() == old(View()) && values == View().PublicRow(baseRow)
    {
      var savedPosition := currentRowPosition;
      currentRowPosition := baseRow;
      values := RowValues(currentRowPosition);
      currentRowPosition := savedPosition;
    }

    method SetPos(rowNumber: nat, operation: Operation, reply: Reply) returns (outcome: SetPosResult)
      requires View().WellFormed()
      modifies this, keysetRows
      ensures keysetRows == old(keysetRows)
      ensures (View(), outcome) == old(View()).SetPos(rowNumber, operation, reply)
      ensures old(View()).Agrees() && FreshReply(old(View()), SetPosRequest(rowNumber, operation, reply)) ==>
                && View().Agrees() && View().OtherRows() == old(View()).OtherRows()
                && View().Grid() == Effect(old(View()), SetPosRequest(rowNumber, operation, reply))
    {
      hide Cursor.Agrees, Effect, FreshReply, Cursor.PositionedUpdate, Cursor.PositionedDelete, Cursor.OtherRows;
      hide Cursor.Grid, Rectangular;
      ghost var before := View();
      if before.Agrees() && FreshReply(before, SetPosRequest(rowNumber, operation, reply)) {
        StepAgrees(before, SetPosRequest(rowNumber, operation, reply));
      }
      if !updatable {
        return Failed("HY092");
      }
      var rowsetFirst := if keysetRowsetFirstRow >= 0 then keysetRowsetFirstRow else currentRowPosition;
      var effectiveRow := if rowNumber == 0 then 1 else rowNumber;
      var baseRow := rowsetFirst + (effectiveRow - 1);
      if baseRow < 0 || baseRow >= keysetRows.Length {
        return Failed("HY107");
      }
      match operation
      case UpdateRow => outcome := KeysetPositionedUpdate(baseRow, reply);
      case DeleteRow => outcome := KeysetPositionedDelete(baseRow, reply);
      case RefreshRow =>
        var values := KeysetPositionedRefresh(baseRow);
        outcome := Refreshed(values);
      case PositionRow =>
        currentRowPosition := baseRow;
        outcome := Done;
      case OtherOperation => outcome := Failed("HY092");
    }

    // ---- Savepoints of the application ----

    method FindSlot(name: string) returns (slot: nat)
      ensures slot == SlotOf(keysetSavepoints, name)
    {
      slot := 0;
      while slot < |keysetSavepoints| && keysetSavepoints[slot].name != name
        invariant slot <= |keysetSavepoints|
        invariant forall k :: 0 <= k < slot ==> keysetSavepoints[k].name != name
      {
        slot := slot + 1;
      }
      if slot < |keysetSavepoints| {
        SlotIsFirst(keysetSavepoints, name, slot);
      }
    }

    // Remembers which rows are deleted, under a name that may be taken again.
    method KeysetSnapshotSavepoint(name: string)
      modifies this`keysetSavepoints
      ensures keysetSavepoints == Snapshot(old(keysetSavepoints), name, View())
      ensures keysetRows.Length > 0 && Remembered(old(keysetSavepoints), name) ==>
                forall c: Cursor :: RollbackTo(keysetSavepoints, name, c) == RestoreFlags(c, DeletedFlags(View()))
    {
      hide RollbackTo, RestoreFlags, SlotOf;
      ghost var before := keysetSavepoints;
      forall c: Cursor | keysetRows.Length > 0 && Remembered(before, name)
        ensures RollbackTo(Snapshot(before, name, View()), name, c) == RestoreFlags(c, DeletedFlags(View()))
      {
        SnapshotRestored(before, name, View(), c);
      }
      if keysetRows.Length > 0 {
        var slot := FindSlot(name);
        if slot < |keysetSavepoints| || |keysetSavepoints| < MAX_KEYSET_SAVEPOINTS {
          var flags := [];
          for i := 0 to keysetRows.Length
            invariant flags == DeletedFlags(View())[..i]
          {
            flags := flags + [keysetRows[i].deleted];
          }
          assert flags == DeletedFlags(View());
          keysetSavepoints := if slot < |keysetSavepoints|
            then keysetSavepoints[slot := KeysetSavepoint(name, flags)]
            else keysetSavepoints + [KeysetSavepoint(name, flags)];
        }
      }
    }

    // The rows the snapshot knows get their flags back; rows added since then are gone.
    method RestoreRows(flags: seq<bool>)
      modifies keysetRows
      ensures forall k :: 0 <= k < keysetRows.Length ==>
                keysetRows[k] == old(keysetRows[k]).(deleted := if k < |flags| then flags[k] else true)
    {
      var restoreCount := if |flags| > keysetRows.Length then keysetRows.Length else |flags|;
      for row := 0 to restoreCount
        invariant forall k :: 0 <= k < row ==> keysetRows[k] == old(keysetRows[k]).(deleted := flags[k])
        invariant forall k :: row <= k < keysetRows.Length ==> keysetRows[k] == old(keysetRows[k])
      {
        keysetRows[row] := keysetRows[row].(deleted := flags[row]);
      }
      for row := restoreCount to keysetRows.Length
        invariant forall k :: 0 <= k < restoreCount ==> keysetRows[k] == old(keysetRows[k]).(deleted := flags[k])
        invariant forall k :: restoreCount <= k < row ==> keysetRows[k] == old(keysetRows[k]).(deleted := true)
        invariant forall k :: row <= k < keysetRows.Length ==> keysetRows[k] == old(keysetRows[k])
      {
        keysetRows[row] := keysetRows[row].(deleted := true);
      }
    }

    method KeysetRestoreSavepoint(name: string)
      modifies keysetRows, this`currentRowPosition, this`keysetRowsetFirstRow, this`keysetRowsetSize
      ensures View() == RollbackTo(keysetSavepoints, name, old(View()))
    {
      var slot := FindSlot(name);
      if slot == |keysetSavepoints| {
        return;
      }
      var flags := keysetSavepoints[slot].deletedFlags;
      RestoreRows(flags);
      currentRowPosition, keysetRowsetFirstRow, keysetRowsetSize := -1, -1, 0;
      assert View().keyset == RestoreFlags(old(View()), flags).keyset;
    }

    // ---- Fetching ----

    // Walks from `start`, skipping deleted rows, until `size` rows are collected or an end is
    // reached; a backward walk collects in descending order.
    method CollectLiveRows(start: int, scanBackward: bool, size: nat) returns (collected: array<nat>, count: nat)
      requires InScan(keysetRows[..], start, scanBackward)
      ensures fresh(collected) && count <= collected.Length
      ensures (if scanBackward then Reversed(collected[..count]) else collected[..count])
              == Wanted(keysetRows[..], start, scanBackward, size)
    {
      hide Collecting, StillAhead, Wanted, Reversed;
      collected := new nat[size];
      count := 0;
      var scanIndex := start;
      ghost var keyset, rows := keysetRows[..], [];
      ghost var wanted := Wanted(keyset, start, scanBackward, size);
      CollectingBegins(keyset, start, scanBackward, size);
      while count < size && 0 <= scanIndex < keysetRows.Length
        invariant count <= size && InScan(keyset, scanIndex, scanBackward)
        invariant keysetRows[..] == keyset && collected[..count] == rows
        invariant Collecting(wanted, scanBackward, size - |rows|, StillAhead(keyset, scanIndex, scanBackward), rows)
        decreases if scanBackward then scanIndex else keysetRows.Length - scanIndex
      {
        rows := CollectingStep(keyset, wanted, scanBackward, size, scanIndex, rows);
        if !keysetRows[scanIndex].deleted {
          collected[count] := scanIndex;
          count := count + 1;
        }
        scanIndex := scanIndex + if scanBackward then -1 else 1;
      }
      NothingAhead(keyset, scanIndex, scanBackward);
      CollectingDone(wanted, scanBackward, size - count, StillAhead(keyset, scanIndex, scanBackward), rows);
    }

    // Flips the first `count` entries in place.
    method FlipCollected(collected: array<nat>, count: nat)
      requires count <= collected.Length
      modifies collected
      ensures collected[..count] == Reversed(old(collected[..count]))
    {
      var i, j := 0, count - 1;
      while i < j
        invariant 0 <= i <= count && j == count - 1 - i && i <= j + 1
        invariant forall k :: 0 <= k < i ==>
                    collected[k] == old(collected[count - 1 - k]) && collected[count - 1 - k] == old(collected[k])
        invariant forall k :: i <= k < count - i ==> collected[k] == old(collected[k])
      {
        collected[i], collected[j] := collected[j], collected[i];
        i, j := i + 1, j - 1;
      }
    }

    method RowsValues(rows: seq<nat>) returns (delivered: seq<Row>)
      requires View().WellFormed() && forall k :: 0 <= k < |rows| ==> rows[k] < |result|
      ensures |delivered| == |rows|
      ensures forall k :: 0 <= k < |rows| ==> delivered[k] == View().PublicRow(rows[k])
    {
      delivered := [];
      for element := 0 to |rows|
        invariant |delivered| == element
        invariant forall k :: 0 <= k < element ==> delivered[k] == View().PublicRow(rows[k])
      {
        var values := RowValues(rows[element]);
        delivered := delivered + [values];
      }
    }

    method ScanStart(orientation: Orientation) returns (scanIndex: int)
      requires View().WellFormed()
      requires orientation in {First, Next, Last, Prior}
      ensures scanIndex == if orientation.First? then 0
                           else if orientation.Next? then (if currentRowPosition < 0 then 0 else currentRowPosition + 1)
                           else if orientation.Last? then keysetRows.Length - 1
                           else BackwardLimit(View()) - 1
    {
      var totalRows := keysetRows.Length;
      match orientation
      case First => scanIndex := 0;
      case Next => scanIndex := if currentRowPosition < 0 then 0 else currentRowPosition + 1;
      case Last => scanIndex := totalRows - 1;
      case Prior =>
        if keysetRowsetFirstRow < 0 || currentRowPosition >= totalRows {
          scanIndex := totalRows - 1;
        } else {
          scanIndex := keysetRowsetFirstRow - 1;
        }
    }

    // Parks or moves the cursor for the rows collected in scan order.
    method DeliverCollected(collected: array<nat>, count: nat, scanBackward: bool) returns (outcome: FetchResult)
      requires count <= collected.Length
      modifies collected, this`currentRowPosition, this`keysetRowsetFirstRow, this`keysetRowsetSize
      ensures var rows := if scanBackward then Reversed(old(collected[..count])) else old(collected[..count]);
              if rows == [] then
                && outcome == NoData && keysetRowsetSize == 0
                && currentRowPosition == (if scanBackward then -1 else keysetRows.Length)
                && keysetRowsetFirstRow == (if scanBackward then -1 else old(keysetRowsetFirstRow))
              else
                && outcome == Rowset(rows, false) && keysetRowsetSize == |rows|
                && keysetRowsetFirstRow == rows[0] && currentRowPosition == rows[|rows| - 1]
    {
      if count == 0 {
        if scanBackward {
          currentRowPosition, keysetRowsetFirstRow := -1, -1;
        } else {
          currentRowPosition := keysetRows.Length;
        }
        keysetRowsetSize := 0;
        return NoData;
      }
      if scanBackward {
        FlipCollected(collected, count);
      }
      keysetRowsetFirstRow := collected[0];
      keysetRowsetSize := count;
      currentRowPosition := collected[count - 1];
      outcome := Rowset(collected[..count], false);
    }

    method BlockWalk(scanIndex: int, scanBackward: bool) returns (outcome: FetchResult)
      requires if scanBackward then -1 <= scanIndex < keysetRows.Length else 0 <= scanIndex
      modifies this`currentRowPosition, this`keysetRowsetFirstRow, this`keysetRowsetSize
      ensures (View(), outcome) ==
              if scanBackward then old(View()).BlockBackward(scanIndex + 1) else old(View()).BlockForward(scanIndex)
    {
      var rowsetSize := rowArraySize;
      if rowsetSize > MAX_BOUND_COLUMNS {
        rowsetSize := MAX_BOUND_COLUMNS;
      }
      var collected, count := CollectLiveRows(scanIndex, scanBackward, rowsetSize);
      ghost var keyset := keysetRows[..];
      outcome := DeliverCollected(collected, count, scanBackward);
      assert keysetRows[..] == keyset;
    }

    method KeysetMove(orientation: Orientation) returns (outcome: FetchResult)
      requires View().WellFormed()
      modifies this`currentRowPosition, this`keysetRowsetFirstRow, this`keysetRowsetSize
      ensures (View(), outcome) == old(View()).BlockFetch(orientation)
    {
      if orientation !in {First, Next, Last, Prior} {
        return FetchError("HY106");
      }
      var scanIndex := ScanStart(orientation);
      outcome := BlockWalk(scanIndex, orientation == Prior || orientation == Last);
    }

    // Marks the first rows of the rowset as fetched and the others as not there.
    method MarkRows(count: nat, size: nat)
      requires StatusFits() && 1 <= count <= size && (size == rowArraySize || size == 1 >= rowArraySize)
      modifies rowStatus
      ensures Marked(count)
    {
      for k := 0 to count
        invariant forall j :: 0 <= j < k ==> rowStatus[j] == RowSuccess
        invariant forall j :: k <= j < rowStatus.Length ==> rowStatus[j] == old(rowStatus[j])
      {
        rowStatus[k] := RowSuccess;
      }
      for k := count to size
        invariant forall j :: 0 <= j < count ==> rowStatus[j] == RowSuccess
        invariant forall j :: count <= j < k ==> rowStatus[j] == RowNoRow
        invariant forall j :: k <= j < rowStatus.Length ==> rowStatus[j] == old(rowStatus[j])
      {
        rowStatus[k] := RowNoRow;
      }
    }

    method KeysetBlockFetch(orientation: Orientation) returns (outcome: FetchResult, delivered: seq<Row>)
      requires View().WellFormed() && StatusFits() && rowArraySize > 1
      modifies this`currentRowPosition, this`keysetRowsetFirstRow, this`keysetRowsetSize, this`rowsFetched, rowStatus
      ensures (View(), outcome) == old(View()).BlockFetch(orientation)
      ensures DeliversRows(old(View()), outcome, delivered)
      ensures rowsFetched == if outcome.FetchError? then old(rowsFetched) else |delivered|
      ensures if outcome.Rowset? then Marked(|delivered|) else rowStatus[..] == old(rowStatus[..])
    {
      hide Cursor.BlockFetch, Cursor.PublicRow, Rectangular;
      ghost var before := View();
      BlockRows(before, orientation);
      outcome := KeysetMove(orientation);
      delivered := [];
      if outcome.NoData? {
        rowsFetched := 0;
      } else if outcome.Rowset? {
        delivered := RowsValues(outcome.rows);
        MovedDelivers(before, View(), outcome, delivered);
        MarkRows(|delivered|, rowArraySize);
        rowsFetched := |delivered|;
      }
    }

    // Copies the rows of a rowset that starts at `firstRow`, up to the end of the result.
    method CopyRows(firstRow: nat, rowsetSize: nat) returns (delivered: seq<Row>)
      requires View().WellFormed() && firstRow < |result| && 0 < rowsetSize
      ensures |delivered| == if firstRow + rowsetSize < |result| then rowsetSize else |result| - firstRow
      ensures forall k :: 0 <= k < |delivered| ==> delivered[k] == View().PublicRow(firstRow + k)
    {
      hide Cursor.RowAgrees, Cursor.DistinctCtids, Cursor.RowCtid, Cursor.Agrees;
      delivered := [];
      while |delivered| < rowsetSize && firstRow + |delivered| < |result|
        invariant |delivered| <= rowsetSize && firstRow + |delivered| <= |result|
        invariant forall k :: 0 <= k < |delivered| ==> delivered[k] == View().PublicRow(firstRow + k)
        decreases rowsetSize - |delivered|
      {
        var values := RowValues(firstRow + |delivered|);
        delivered := delivered + [values];
      }
    }

    method PopulateBoundRowset(clamped: bool) returns (outcome: FetchResult, delivered: seq<Row>)
      requires View().WellFormed() && StatusFits() && 0 <= currentRowPosition < |result|
      modifies this`currentRowPosition, this`rowsFetched, rowStatus
      ensures (View(), outcome) == old(View()).RowsetAt(old(currentRowPosition), clamped)
      ensures DeliversRows(old(View()), outcome, delivered) && rowsFetched == |delivered| && Marked(|delivered|)
    {
      hide Cursor.PublicRow, Rectangular, DeliversRows;
      var rowsetSize := if rowArraySize > 0 then rowArraySize else 1;
      var firstRow := currentRowPosition;
      delivered := CopyRows(firstRow, rowsetSize);
      IntervalDelivered(View(), firstRow, clamped, delivered);
      var rowsCopied := |delivered|;
      MarkRows(rowsCopied, rowsetSize);
      rowsFetched := rowsCopied;
      currentRowPosition := firstRow + rowsCopied - 1;
      outcome := Rowset(Interval(firstRow, firstRow + rowsCopied), clamped);
    }

    // The counter is always what was delivered, and the status array tells which rows.
    method Fetch() returns (outcome: FetchResult, delivered: seq<Row>)
      requires View().WellFormed() && StatusFits()
      modifies this`currentRowPosition, this`keysetRowsetFirstRow, this`keysetRowsetSize, this`rowsFetched, rowStatus
      ensures (View(), outcome) == old(View()).FetchNextRow()
      ensures DeliversRows(old(View()), outcome, delivered) && rowsFetched == |delivered|
      ensures if outcome.Rowset? then Marked(|delivered|) else rowStatus[..] == old(rowStatus[..])
    {
      hide Cursor.PublicRow, Cursor.BlockFetch, Rectangular;
      ghost var before := View();
      if updatable && rowArraySize > 1 {
        NextIsSupported(before);
        outcome, delivered := KeysetBlockFetch(Next);
        return;
      }
      currentRowPosition := currentRowPosition + 1;
      if currentRowPosition >= |result| {
        rowsFetched := 0;
        return NoData, [];
      }
      ghost var moved := View();
      outcome, delivered := PopulateBoundRowset(false);
      MovedDelivers(before, moved, outcome, delivered);
    }

    method TargetIndex(orientation: Orientation) returns (targetIndex: int, clamped: bool)
      ensures (targetIndex, clamped) == View().ScrollTarget(orientation)
    {
      var totalRows := |result|;
      targetIndex, clamped := -1, false;
      match orientation
      case Next => targetIndex := if currentRowPosition < 0 then 0 else currentRowPosition + 1;
      case Prior => targetIndex := if currentRowPosition >= totalRows then totalRows - 1 else currentRowPosition - 1;
      case First => targetIndex := 0;
      case Last => targetIndex := totalRows - 1;
      case Absolute(offset) =>
        if offset > 0 {
          targetIndex := offset - 1;
        } else if offset < 0 {
          targetIndex := totalRows + offset;
          if targetIndex < 0 {
            targetIndex, clamped := 0, true;
          }
        }
      case Relative(offset) => targetIndex := currentRowPosition + offset;
      case Bookmark(stored, offset) =>
        if stored.Some? {
          var baseRow := if stored.value < 0 then stored.value else stored.value - 1;
          targetIndex := baseRow + offset;
        }
    }

    // The counter of the handle is what was delivered, unless a scroll without a block fetch finds no
    // row: then it still holds what an earlier fetch delivered. The caller's own count is always what
    // was delivered, and the caller's own statuses say so, the first one also when there was no row. When an
    // ABSOLUTE was clamped to the first row these are with info, those of the handle are not.
    method ExtendedFetch(orientation: Orientation, callerStatus: array?<RowStatus>)
      returns (outcome: FetchResult, delivered: seq<Row>, fetchedRowCount: nat)
      requires View().WellFormed() && StatusFits()
      requires callerStatus != null ==>
                 callerStatus != rowStatus && 1 <= callerStatus.Length && rowArraySize <= callerStatus.Length
      modifies this`currentRowPosition, this`keysetRowsetFirstRow, this`keysetRowsetSize, this`rowsFetched, rowStatus
      modifies if callerStatus == null then {} else {callerStatus}
      ensures (View(), outcome) == old(View()).ExtendedFetch(orientation)
      ensures DeliversRows(old(View()), outcome, delivered) && fetchedRowCount == |delivered|
      ensures rowsFetched == |delivered| <==>
              outcome.Rowset? || (outcome.NoData? && old(View()).BlockFetchActive()) || old(rowsFetched) == 0
      ensures if outcome.Rowset? then Marked(|delivered|) else rowStatus[..] == old(rowStatus[..])
      ensures callerStatus != null ==>
                forall k :: 0 <= k < callerStatus.Length ==>
                  callerStatus[k] ==
                    if k < |delivered| && outcome.Rowset? && outcome.clamped then RowSuccessWithInfo
                    else if k < |delivered| then RowSuccess
                    else if k == 0 then RowNoRow
                    else old(callerStatus[k])
    {
      hide Cursor.ExtendedFetch, DeliversRows, Rectangular;
      DeliveredFits(View(), orientation);
      if callerStatus != null {
        callerStatus[0] := RowNoRow;
      }
      outcome, delivered := Scroll(orientation);
      fetchedRowCount := |delivered|;
      if callerStatus != null {
        var success := if outcome.Rowset? && outcome.clamped then RowSuccessWithInfo else RowSuccess;
        MarkFetched(callerStatus, fetchedRowCount, success);
      }
    }

    static method MarkFetched(statuses: array<RowStatus>, count: nat, success: RowStatus)
      requires count <= statuses.Length
      modifies statuses
      ensures forall k :: 0 <= k < statuses.Length ==>
                statuses[k] == if k < count then success else old(statuses[k])
    {
      for k := 0 to count
        invariant forall j :: 0 <= j < statuses.Length ==>
                    statuses[j] == if j < k then success else old(statuses[j])
      {
        statuses[k] := success;
      }
    }

    method Scroll(orientation: Orientation) returns (outcome: FetchResult, delivered: seq<Row>)
      requires View().WellFormed() && StatusFits()
      modifies this`currentRowPosition, this`keysetRowsetFirstRow, this`keysetRowsetSize, this`rowsFetched, rowStatus
      ensures (View(), outcome) == old(View()).ExtendedFetch(orientation)
      ensures DeliversRows(old(View()), outcome, delivered)
      ensures rowsFetched == |delivered| <==>
              outcome.Rowset? || (outcome.NoData? && old(View()).BlockFetchActive()) || old(rowsFetched) == 0
      ensures if outcome.Rowset? then Marked(|delivered|) else rowStatus[..] == old(rowStatus[..])
    {
      hide DeliversRows, Cursor.LandOn, Cursor.BlockFetch, Cursor.ScrollTarget, Rectangular;
      delivered := [];
      NothingDelivered(View());
      if forwardOnly && orientation != Next {
        outcome := FetchError("HY106");
        return;
      }
      if updatable && rowArraySize > 1 {
        outcome, delivered := KeysetBlockFetch(orientation);
        return;
      }
      if orientation.Bookmark? && !useBookmarks {
        return FetchError("HY106"), [];
      }
      if orientation.Bookmark? && orientation.stored.None? {
        return FetchError("HY090"), [];
      }
      var targetIndex, clamped := TargetIndex(orientation);
      outcome, delivered := MoveTo(targetIndex, clamped);
    }

    method MoveTo(targetIndex: int, clamped: bool) returns (outcome: FetchResult, delivered: seq<Row>)
      requires View().WellFormed() && StatusFits()
      modifies this`currentRowPosition, this`rowsFetched, rowStatus
      ensures (View(), outcome) == old(View()).LandOn(targetIndex, clamped)
      ensures DeliversRows(old(View()), outcome, delivered)
      ensures rowsFetched == if outcome.Rowset? then |delivered| else old(rowsFetched)
      ensures if outcome.Rowset? then Marked(|delivered|) else rowStatus[..] == old(rowStatus[..])
    {
      hide Cursor.PublicRow, Rectangular;
      ghost var before := View();
      if targetIndex < 0 {
        currentRowPosition := -1;
        return NoData, [];
      }
      if targetIndex >= |result| {
        currentRowPosition := |result|;
        return NoData, [];
      }
      currentRowPosition := targetIndex;
      ghost var moved := View();
      outcome, delivered := PopulateBoundRowset(clamped);
      MovedDelivers(before, moved, outcome, delivered);
    }
  }

  lemma NoAssignments(bindings: seq<Binding>, publicColumns: nat)
    requires bindings == []
    ensures Assignments(bindings, publicColumns) == []
  {
  }

  lemma AssignmentsFrom(bindings: seq<Binding>, slot: nat, publicColumns: nat)
    requires slot < |bindings|
    ensures var b := bindings[slot];
            Assignments(bindings[slot..], publicColumns) ==
            (if b.isBound && 0 <= b.columnNumber - 1 < publicColumns && !b.ignored
             then [Assignment(b.columnNumber - 1, b.value)] else [])
            + Assignments(bindings[slot + 1..], publicColumns)
  {
    assert bindings[slot..][1..] == bindings[slot + 1..];
  }

  // Moving the cursor does not change what a row shows.
  lemma MovedDelivers(c: Cursor, c': Cursor, outcome: FetchResult, delivered: seq<Row>)
    requires OnlyMoved(c, c') && c.WellFormed()
    ensures DeliversRows(c, outcome, delivered) == DeliversRows(c', outcome, delivered)
  {
    assert forall row :: 0 <= row < |c.base| ==> c.PublicRow(row) == c'.PublicRow(row);
  }

  lemma IntervalDelivered(c: Cursor, first: nat, clamped: bool, delivered: seq<Row>)
    requires c.WellFormed() && first + |delivered| <= |c.base|
    requires forall k :: 0 <= k < |delivered| ==> delivered[k] == c.PublicRow(first + k)
    ensures DeliversRows(c, Rowset(Interval(first, first + |delivered|), clamped), delivered)
  {
    hide Cursor.PublicRow, Rectangular;
  }

  lemma NothingDelivered(c: Cursor)
    requires c.WellFormed()
    ensures forall outcome: FetchResult, delivered :: !outcome.Rowset? ==>
              (DeliversRows(c, outcome, delivered) <==> delivered == [])
  {
  }

  lemma NextIsSupported(c: Cursor)
    requires c.WellFormed()
    ensures !c.BlockFetch(Next).1.FetchError?
  {
    hide LiveFrom, Rectangular;
  }

  lemma DeliveredFits(c: Cursor, orientation: Orientation)
    requires c.WellFormed()
    ensures forall delivered :: DeliversRows(c, c.ExtendedFetch(orientation).1, delivered) ==>
              |delivered| <= if c.rowArraySize > 1 then c.rowArraySize else 1
  {
    hide Cursor.BlockFetch, Cursor.ScrollTarget, Cursor.PublicRow;
    BlockRows(c, orientation);
  }

  lemma BlockRows(c: Cursor, orientation: Orientation)
    requires c.WellFormed()
    ensures var (c', result) := c.BlockFetch(orientation);
            && OnlyMoved(c, c')
            && (result.Rowset? ==> 0 < |result.rows| <= c.rowArraySize &&
                                   forall k :: 0 <= k < |result.rows| ==> result.rows[k] < |c.base|)
  {
    hide Cursor.BlockFetch;
    BlockFetchFrame(c, orientation);
  }

  lemma CtidIsUnique(c: Cursor, row: nat)
    requires c.Agrees() && row < |c.base|
    ensures c.RowCtid(row).Some? && (c.RowCtid(row).value in c.table.rows <==> !c.Deleted(row))
    ensures !c.Deleted(row) ==> c.table.rows[c.RowCtid(row).value] == c.PublicRow(row)
    ensures forall k :: 0 <= k < |c.base| && k != row && !c.Deleted(k) ==> c.RowCtid(k) != c.RowCtid(row)
  {
    hide Cursor.RowCtid, Cursor.PublicRow;
    assert c.RowAgrees(row);
    forall k | 0 <= k < |c.base| && k != row && !c.Deleted(k) ensures c.RowCtid(k) != c.RowCtid(row) {
      assert c.RowAgrees(k);
    }
  }

  function Reversed(s: seq<nat>): seq<nat> {
    seq(|s|, k requires 0 <= k < |s| => s[|s| - 1 - k])
  }

  predicate InScan(keyset: seq<KeysetRow>, scanIndex: int, backward: bool) {
    if backward then -1 <= scanIndex < |keyset| else 0 <= scanIndex
  }

  ghost function StillAhead(keyset: seq<KeysetRow>, scanIndex: int, backward: bool): seq<nat>
    requires InScan(keyset, scanIndex, backward)
  {
    if backward then LiveBelow(keyset, scanIndex + 1) else LiveFrom(keyset, scanIndex)
  }

  // The rowset of a walk that starts at `start`.
  ghost function Wanted(keyset: seq<KeysetRow>, start: int, backward: bool, size: nat): seq<nat>
    requires InScan(keyset, start, backward)
  {
    if backward then LastOf(LiveBelow(keyset, start + 1), size) else FirstOf(LiveFrom(keyset, start), size)
  }

  // Of the rows still ahead, `room` more complete what was collected to the wanted rowset.
  ghost predicate Collecting(wanted: seq<nat>, backward: bool, room: nat, ahead: seq<nat>, collected: seq<nat>) {
    if backward then LastOf(ahead, room) + Reversed(collected) == wanted
    else collected + FirstOf(ahead, room) == wanted
  }

  lemma CollectingBegins(keyset: seq<KeysetRow>, start: int, backward: bool, size: nat)
    requires InScan(keyset, start, backward)
    ensures Collecting(Wanted(keyset, start, backward, size), backward, size, StillAhead(keyset, start, backward), [])
  {
  }

  lemma NothingAhead(keyset: seq<KeysetRow>, scanIndex: int, backward: bool)
    requires InScan(keyset, scanIndex, backward)
    ensures !(0 <= scanIndex < |keyset|) ==> StillAhead(keyset, scanIndex, backward) == []
  {
  }

  lemma CollectingStep(keyset: seq<KeysetRow>, wanted: seq<nat>, backward: bool, size: nat, scanIndex: nat,
                       collected: seq<nat>)
      returns (collected': seq<nat>)
    requires scanIndex < |keyset| && |collected| < size
    requires Collecting(wanted, backward, size - |collected|, StillAhead(keyset, scanIndex, backward), collected)
    ensures collected' == if keyset[scanIndex].deleted then collected else collected + [scanIndex]
    ensures var next := StillAhead(keyset, scanIndex + if backward then -1 else 1, backward);
            Collecting(wanted, backward, size - |collected'|, next, collected')
  {
    hide FirstOf, LastOf, Reversed, StillAhead;
    AheadStep(keyset, scanIndex, backward);
    collected' := collected;
    if !keyset[scanIndex].deleted {
      collected' := collected + [scanIndex];
      var next := StillAhead(keyset, scanIndex + if backward then -1 else 1, backward);
      if backward {
        TakeFromBack(next, scanIndex, size - |collected|, collected);
      } else {
        TakeFromFront(next, scanIndex, size - |collected|, collected);
      }
    }
  }

  lemma AheadStep(keyset: seq<KeysetRow>, scanIndex: nat, backward: bool)
    requires scanIndex < |keyset|
    ensures var next := StillAhead(keyset, scanIndex + if backward then -1 else 1, backward);
            StillAhead(keyset, scanIndex, backward) ==
            if keyset[scanIndex].deleted then next else if backward then next + [scanIndex] else [scanIndex] + next
  {
  }

  lemma TakeFromFront(ahead: seq<nat>, x: nat, room: nat, collected: seq<nat>)
    requires room > 0
    ensures collected + FirstOf([x] + ahead, room) == (collected + [x]) + FirstOf(ahead, room - 1)
  {
    assert FirstOf([x] + ahead, room) == [x] + FirstOf(ahead, room - 1);
  }

  lemma TakeFromBack(ahead: seq<nat>, x: nat, room: nat, collected: seq<nat>)
    requires room > 0
    ensures LastOf(ahead + [x], room) + Reversed(collected) == LastOf(ahead, room - 1) + Reversed(collected + [x])
  {
    assert LastOf(ahead + [x], room) == LastOf(ahead, room - 1) + [x];
    assert Reversed(collected + [x]) == [x] + Reversed(collected);
  }

  lemma CollectingDone(wanted: seq<nat>, backward: bool, room: nat, ahead: seq<nat>, collected: seq<nat>)
    requires Collecting(wanted, backward, room, ahead, collected) && (room == 0 || ahead == [])
    ensures (if backward then Reversed(collected) else collected) == wanted
  {
    assert FirstOf(ahead, room) == [] && LastOf(ahead, room) == [];
  }
}
