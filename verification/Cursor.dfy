/** A server table whose rows are addressed by ctid; every UPDATE moves its row to a new ctid. */
module CtidTable {
  datatype Value = Null | Text(text: string)

  type Row = seq<Value>

  datatype Assignment = Assignment(column: nat, value: Value)

  // `used` holds every ctid that ever named a row: the server does not hand one out twice.
  datatype Table = Table(rows: map<string, Row>, used: set<string>)

  // What the server decides about one command: whether it reports an error, and where it
  // puts the new version of an updated row.
  datatype Reply = Reply(refused: bool, newCtid: string)

  function Assign(row: Row, assignments: seq<Assignment>): (r: Row)
    ensures |r| == |row|
    decreases |assignments|
  {
    if assignments == [] then row
    else
      var a := assignments[0];
      Assign(if a.column < |row| then row[a.column := a.value] else row, assignments[1..])
  }

  function Update(t: Table, ctid: string, assignments: seq<Assignment>, newCtid: string): Table {
    if ctid !in t.rows then t
    else Table((t.rows - {ctid})[newCtid := Assign(t.rows[ctid], assignments)], t.used + {newCtid})
  }

  function Delete(t: Table, ctid: string): Table {
    t.(rows := t.rows - {ctid})
  }
}

/**
 A cursor over a buffered, immutable result: scrolling over its rows, and for an updatable
 cursor the per-row overlay through which positioned changes become visible.
 */
module CursorModel {
  import opened Blocks
  import opened CtidTable
  import opened Options

  const MAX_BOUND_COLUMNS := 256

  datatype KeysetRow = KeysetRow(deleted: bool, overrideValues: Option<Row>)

  datatype Binding = Binding(isBound: bool, columnNumber: int, ignored: bool, value: Value)

  datatype Orientation =
    | Next | Prior | First | Last
    | Absolute(offset: int)
    | Relative(offset: int)
    | Bookmark(stored: Option<int>, offset: int)

  datatype FetchResult =
    | NoData
    | Rowset(rows: seq<nat>, clamped: bool)
    | FetchError(sqlstate: string)

  datatype Operation = UpdateRow | DeleteRow | RefreshRow | PositionRow | OtherOperation

  datatype SetPosResult = Done | Refreshed(row: Row) | Failed(sqlstate: string)

  // Indices of the rows not deleted, from `i` on and below `i`.
  function LiveFrom(keyset: seq<KeysetRow>, i: nat): seq<nat>
    decreases |keyset| - i
  {
    if i >= |keyset| then []
    else if keyset[i].deleted then LiveFrom(keyset, i + 1)
    else [i] + LiveFrom(keyset, i + 1)
  }

  function LiveBelow(keyset: seq<KeysetRow>, i: nat): seq<nat>
    requires i <= |keyset|
  {
    if i == 0 then []
    else if keyset[i - 1].deleted then LiveBelow(keyset, i - 1)
    else LiveBelow(keyset, i - 1) + [i - 1]
  }

  function Interval(lo: nat, hi: nat): seq<nat>
    requires lo <= hi
  {
    seq(hi - lo, i requires 0 <= i < hi - lo => lo + i)
  }

  function Assignments(bindings: seq<Binding>, publicColumns: nat): seq<Assignment> {
    if bindings == [] then []
    else
      var b := bindings[0];
      (if b.isBound && 0 <= b.columnNumber - 1 < publicColumns && !b.ignored
       then [Assignment(b.columnNumber - 1, b.value)] else [])
      + Assignments(bindings[1..], publicColumns)
  }

  // Every row, buffered or overlaid, has the public columns and the ctid.
  predicate Rectangular(base: seq<Row>, keyset: seq<KeysetRow>, publicColumns: nat) {
    && |keyset| == |base|
    && (forall k :: 0 <= k < |base| ==> |base[k]| == publicColumns + 1)
    && (forall k :: 0 <= k < |keyset| && keyset[k].overrideValues.Some? ==>
          |keyset[k].overrideValues.value| == publicColumns + 1)
  }

  datatype Cursor = Cursor(
    base: seq<Row>,           // the buffered result, each row followed by its ctid
    publicColumns: nat,       // index of the hidden ctid column
    forwardOnly: bool,
    updatable: bool,
    useBookmarks: bool,
    keyset: seq<KeysetRow>,
    position: int,
    rowsetFirst: int,
    rowsetSize: int,
    rowArraySize: nat,
    bindings: seq<Binding>,
    table: Table)
  {
    // ---- Reading through the overlay ----

    predicate WellFormed() {
      && -1 <= position && -1 <= rowsetFirst && (rowsetFirst == -1 || rowsetFirst < |keyset|)
      && Rectangular(base, keyset, publicColumns)
    }

    function FullRow(row: nat): Row
      requires row < |base| == |keyset|
    {
      if keyset[row].overrideValues.Some? then keyset[row].overrideValues.value else base[row]
    }

    function PublicRow(row: nat): Row
      requires row < |base| == |keyset| && WellFormed()
    {
      FullRow(row)[..publicColumns]
    }

    function RowCtid(row: int): Option<string>
      requires WellFormed()
    {
      if row < 0 || row >= |base| then None
      else if keyset[row].overrideValues.Some? && keyset[row].overrideValues.value[publicColumns].Text? then
        Some(keyset[row].overrideValues.value[publicColumns].text)
      else if base[row][publicColumns].Text? then Some(base[row][publicColumns].text)
      else None
    }

    // ---- SQLSetPos ----

    function WithOverlay(row: nat, values: Row): Cursor
      requires row < |keyset|
    {
      this.(keyset := keyset[row := keyset[row].(overrideValues := Some(values))])
    }

    function WithDeleted(row: nat): Cursor
      requires row < |keyset|
    {
      this.(keyset := keyset[row := keyset[row].(deleted := true)])
    }

    function PositionedUpdate(row: nat, reply: Reply): (Cursor, SetPosResult)
      requires WellFormed() && row < |keyset|
    {
      var assignments := Assignments(bindings, publicColumns);
      match RowCtid(row)
      case None => (this, Failed("HY000"))
      case Some(ctid) =>
        if assignments == [] then (this, Done)
        else if reply.refused then (this, Failed("HY000"))
        else if ctid !in table.rows then (this, Done)
        else
          var updated := this.(table := Update(table, ctid, assignments, reply.newCtid));
          (updated.WithOverlay(row, Fit(Assign(table.rows[ctid], assignments) + [Text(reply.newCtid)])), Done)
    }

    // The overlay has the width of the cursor's own result, whatever the server returned.
    function Fit(values: Row): Row {
      seq(publicColumns + 1, k requires 0 <= k => if k < |values| then values[k] else Null)
    }

    function PositionedDelete(row: nat, reply: Reply): (Cursor, SetPosResult)
      requires WellFormed() && row < |keyset|
    {
      match RowCtid(row)
      case None => (WithDeleted(row), Done)
      case Some(ctid) =>
        if reply.refused then (this, Failed("HY000"))
        else (this.(table := Delete(table, ctid)).WithDeleted(row), Done)
    }

    function TargetRow(rowNumber: nat): int {
      (if rowsetFirst >= 0 then rowsetFirst else position) + (if rowNumber == 0 then 1 else rowNumber) - 1
    }

    function SetPos(rowNumber: nat, operation: Operation, reply: Reply): (Cursor, SetPosResult)
      requires WellFormed()
    {
      var row := TargetRow(rowNumber);
      if !updatable then (this, Failed("HY092"))
      else if row < 0 || row >= |keyset| then (this, Failed("HY107"))
      else
        match operation
        case UpdateRow => PositionedUpdate(row, reply)
        case DeleteRow => PositionedDelete(row, reply)
        case RefreshRow => (this, Refreshed(PublicRow(row)))
        case PositionRow => (this.(position := row), Done)
        case OtherOperation => (this, Failed("HY092"))
    }

    // ---- Block fetch over the overlay ----

    function BlockSize(): nat { if rowArraySize > MAX_BOUND_COLUMNS then MAX_BOUND_COLUMNS else rowArraySize }

    function Delivered(rows: seq<nat>): Cursor
      requires rows != []
    {
      this.(rowsetFirst := rows[0], rowsetSize := |rows|, position := rows[|rows| - 1])
    }

    function BlockForward(start: nat): (Cursor, FetchResult) {
      var rows := FirstOf(LiveFrom(keyset, start), BlockSize());
      if rows == [] then (this.(position := |keyset|, rowsetSize := 0), NoData)
      else (Delivered(rows), Rowset(rows, false))
    }

    function BlockBackward(limit: nat): (Cursor, FetchResult)
      requires limit <= |keyset|
    {
      var rows := LastOf(LiveBelow(keyset, limit), BlockSize());
      if rows == [] then (this.(position := -1, rowsetFirst := -1, rowsetSize := 0), NoData)
      else (Delivered(rows), Rowset(rows, false))
    }

    function BlockFetch(orientation: Orientation): (Cursor, FetchResult)
      requires WellFormed()
    {
      match orientation
      case First => BlockForward(0)
      case Next => BlockForward(if position < 0 then 0 else position + 1)
      case Last => BlockBackward(|keyset|)
      case Prior => BlockBackward(if rowsetFirst < 0 || position >= |keyset| then |keyset| else rowsetFirst)
      case _ => (this, FetchError("HY106"))
    }

    // ---- Plain fetches ----

    predicate BlockFetchActive() { updatable && rowArraySize > 1 }

    // Copies the rowset that starts at a real row.
    function RowsetAt(first: nat, clamped: bool): (Cursor, FetchResult)
      requires first < |base|
    {
      var size := if rowArraySize > 1 then rowArraySize else 1;
      var end := if first + size < |base| then first + size else |base|;
      (this.(position := end - 1), Rowset(Interval(first, end), clamped))
    }

    function FetchNextRow(): (Cursor, FetchResult)
      requires WellFormed()
    {
      if BlockFetchActive() then BlockFetch(Next)
      else if position + 1 >= |base| then (this.(position := position + 1), NoData)
      else RowsetAt(position + 1, false)
    }

    // The row an orientation asks for, and whether it was moved up to the first row.
    function ScrollTarget(orientation: Orientation): (int, bool) {
      match orientation
      case Next => (if position < 0 then 0 else position + 1, false)
      case Prior => (if position >= |base| then |base| - 1 else position - 1, false)
      case First => (0, false)
      case Last => (|base| - 1, false)
      case Absolute(offset) =>
        if offset == 0 then (-1, false)
        else if offset > 0 then (offset - 1, false)
        else if |base| + offset < 0 then (0, true)
        else (|base| + offset, false)
      case Relative(offset) => (position + offset, false)
      case Bookmark(stored, offset) =>
        (if stored.None? then -1 else (if stored.value < 0 then stored.value else stored.value - 1) + offset, false)
    }

    function ExtendedFetch(orientation: Orientation): (Cursor, FetchResult)
      requires WellFormed()
    {
      if forwardOnly && orientation != Next then (this, FetchError("HY106"))
      else if BlockFetchActive() then BlockFetch(orientation)
      else if orientation.Bookmark? && !useBookmarks then (this, FetchError("HY106"))
      else if orientation.Bookmark? && orientation.stored.None? then (this, FetchError("HY090"))
      else LandOn(ScrollTarget(orientation).0, ScrollTarget(orientation).1)
    }

    // Parks before the first or behind the last row, or delivers the rowset that starts at the target.
    function LandOn(target: int, clamped: bool): (Cursor, FetchResult) {
      if target < 0 then (this.(position := -1), NoData)
      else if target >= |base| then (this.(position := |base|), NoData)
      else RowsetAt(target, clamped)
    }

    // ---- Agreement with the server ----

    predicate Deleted(row: nat)
      requires row < |keyset|
    {
      keyset[row].deleted
    }

    // A live row is where its ctid says, with the value read through the overlay; the ctid of
    // a deleted row names nothing any more.
    ghost predicate RowAgrees(row: nat)
      requires WellFormed() && row < |keyset|
    {
      && RowCtid(row).Some?
      && RowCtid(row).value in table.used
      && if Deleted(row) then RowCtid(row).value !in table.rows
         else RowCtid(row).value in table.rows && table.rows[RowCtid(row).value] == PublicRow(row)
    }

    ghost predicate DistinctCtids()
      requires WellFormed()
    {
      forall j, k :: 0 <= j < k < |keyset| && !Deleted(j) && !Deleted(k) ==> RowCtid(j) != RowCtid(k)
    }

    ghost predicate Agrees() {
      && WellFormed()
      && table.rows.Keys <= table.used
      && (forall row :: 0 <= row < |keyset| ==> RowAgrees(row))
      && DistinctCtids()
    }

    // The cursor as the application sees it: a value for every live row.
    ghost function Grid(): seq<Option<Row>>
      requires WellFormed()
    {
      seq(|keyset|, row requires 0 <= row < |keyset| => if Deleted(row) then None else Some(PublicRow(row)))
    }

    // The rows of the table that no live row of the cursor stands for.
    ghost function OtherRows(): map<string, Row>
      requires WellFormed()
    {
      map ctid | ctid in table.rows && !LiveCtid(ctid) :: table.rows[ctid]
    }

    ghost predicate LiveCtid(ctid: string)
      requires WellFormed()
    {
      exists row :: 0 <= row < |keyset| && !Deleted(row) && RowCtid(row) == Some(ctid)
    }
  }

  // ---- Which columns an update changes ----

  predicate Writes(b: Binding, publicColumns: nat, column: nat) {
    b.isBound && !b.ignored && b.columnNumber == column + 1 && column < publicColumns
  }

  ghost predicate NoneWrites(bindings: seq<Binding>, publicColumns: nat, column: nat) {
    forall b <- bindings :: !Writes(b, publicColumns, column)
  }

  /**
   A column takes the value of the last bound column of its number that is not ignored, and keeps its
   own when there is none; the hidden ctid column is never assigned.
   */
  lemma {:induction false} ColumnsAfterUpdate(row: Row, bindings: seq<Binding>, publicColumns: nat, column: nat, k: nat)
    requires column < |row|
    ensures NoneWrites(bindings, publicColumns, column) ==>
              Assign(row, Assignments(bindings, publicColumns))[column] == row[column]
    ensures k < |bindings| && Writes(bindings[k], publicColumns, column)
            && NoneWrites(bindings[k + 1..], publicColumns, column) ==>
              Assign(row, Assignments(bindings, publicColumns))[column] == bindings[k].value
    decreases |bindings|
  {
    hide Writes, NoneWrites, Assign, Assignments;
    if bindings == [] {
      NothingWritten(row, publicColumns);
    } else {
      var rest := bindings[1..];
      FirstWritten(row, bindings, publicColumns, column);
      var next := Assign(row, Assignments(bindings[..1], publicColumns));
      ColumnsAfterUpdate(next, rest, publicColumns, column, if k > 0 then k - 1 else 0);
      assert k > 0 && k < |bindings| ==> rest[k - 1] == bindings[k] && rest[k..] == bindings[k + 1..];
      NoneWritesUnfold(bindings, publicColumns, column);
    }
  }

  lemma NothingWritten(row: Row, publicColumns: nat)
    ensures Assign(row, Assignments([], publicColumns)) == row
  {
  }

  lemma NoneWritesUnfold(bindings: seq<Binding>, publicColumns: nat, column: nat)
    requires bindings != []
    ensures NoneWrites(bindings, publicColumns, column) <==>
            !Writes(bindings[0], publicColumns, column) && NoneWrites(bindings[1..], publicColumns, column)
  {
    assert bindings == [bindings[0]] + bindings[1..];
  }

  lemma FirstWritten(row: Row, bindings: seq<Binding>, publicColumns: nat, column: nat)
    requires bindings != [] && column < |row|
    ensures var next := Assign(row, Assignments(bindings[..1], publicColumns));
            && Assign(row, Assignments(bindings, publicColumns))
               == Assign(next, Assignments(bindings[1..], publicColumns))
            && next[column] == if Writes(bindings[0], publicColumns, column) then bindings[0].value else row[column]
  {
    hide Assign, Assignments;
    AssignmentsUnfold(bindings, publicColumns);
    AssignJoined(row, Assignments(bindings[..1], publicColumns), Assignments(bindings[1..], publicColumns));
    OneAssigned(row, bindings[0], publicColumns, column);
    assert bindings[..1] == [bindings[0]];
  }

  lemma AssignmentsUnfold(bindings: seq<Binding>, publicColumns: nat)
    requires bindings != []
    ensures Assignments(bindings, publicColumns)
            == Assignments(bindings[..1], publicColumns) + Assignments(bindings[1..], publicColumns)
  {
    assert bindings[..1][1..] == [] && bindings[..1][0] == bindings[0];
  }

  lemma OneAssigned(row: Row, b: Binding, publicColumns: nat, column: nat)
    requires column < |row|
    ensures Assign(row, Assignments([b], publicColumns))[column]
            == if Writes(b, publicColumns, column) then b.value else row[column]
  {
    var one := Assignments([b], publicColumns);
    assert [b][1..] == [] && Assignments([], publicColumns) == [];
    assert one == [] || one == [Assignment(b.columnNumber - 1, b.value)];
    assert one != [] ==> one[1..] == [];
  }

  lemma {:induction false} AssignJoined(row: Row, a: seq<Assignment>, b: seq<Assignment>)
    ensures Assign(row, a + b) == Assign(Assign(row, a), b)
    decreases |a|
  {
    if a == [] {
      assert a + b == b;
    } else {
      assert (a + b)[1..] == a[1..] + b;
      AssignJoined(if a[0].column < |row| then row[a[0].column := a[0].value] else row, a[1..], b);
    }
  }

  // ---- One positioned operation ----

  predicate UpdateApplies(c: Cursor, row: nat, reply: Reply)
    requires row < |c.keyset|
  {
    Assignments(c.bindings, c.publicColumns) != [] && !reply.refused && !c.Deleted(row)
  }

  lemma UpdatedRow(c: Cursor, row: nat, reply: Reply)
    requires c.Agrees() && row < |c.keyset| && UpdateApplies(c, row, reply)
    ensures var (c', result) := c.PositionedUpdate(row, reply);
            var updated := Assign(c.PublicRow(row), Assignments(c.bindings, c.publicColumns));
            && result == Done && c'.WellFormed() && |c'.keyset| == |c.keyset| && c'.base == c.base
            && !c'.Deleted(row) && c'.RowCtid(row) == Some(reply.newCtid) && c'.PublicRow(row) == updated
            && c'.table == Table((c.table.rows - {c.RowCtid(row).value})[reply.newCtid := updated],
                                 c.table.used + {reply.newCtid})
  {
    var c' := c.PositionedUpdate(row, reply).0;
    assert c.RowAgrees(row);
    var updated := Assign(c.PublicRow(row), Assignments(c.bindings, c.publicColumns));
    assert c'.keyset[row].overrideValues.value == updated + [Text(reply.newCtid)];
  }

  lemma RowBesideUpdate(c: Cursor, row: nat, reply: Reply, k: nat)
    requires c.Agrees() && row < |c.keyset| && UpdateApplies(c, row, reply) && reply.newCtid !in c.table.used
    requires k < |c.keyset| && k != row
    ensures var c' := c.PositionedUpdate(row, reply).0;
            && c'.WellFormed() && |c'.keyset| == |c.keyset|
            && c'.RowCtid(k) == c.RowCtid(k) && c'.Deleted(k) == c.Deleted(k) && c'.PublicRow(k) == c.PublicRow(k)
            && c'.RowAgrees(k) && c'.RowCtid(k) != Some(reply.newCtid)
  {
    hide Assign;
    UpdatedRow(c, row, reply);
    assert c.RowAgrees(row) && c.RowAgrees(k);
    var c' := c.PositionedUpdate(row, reply).0;
    assert c'.keyset[k] == c.keyset[k];
    if !c.Deleted(k) {
      assert c.RowCtid(k) != c.RowCtid(row);
    }
  }

  lemma UpdateChangesRow(c: Cursor, row: nat, reply: Reply)
    requires c.Agrees() && row < |c.keyset| && UpdateApplies(c, row, reply) && reply.newCtid !in c.table.used
    ensures var c' := c.PositionedUpdate(row, reply).0;
            && c'.Agrees() && c'.OtherRows() == c.OtherRows()
            && c'.Grid() == c.Grid()[row := Some(Assign(c.PublicRow(row), Assignments(c.bindings, c.publicColumns)))]
  {
    hide Cursor.PositionedUpdate, Cursor.RowCtid, Cursor.PublicRow, Assign, Assignments;
    UpdatedRow(c, row, reply);
    var c' := c.PositionedUpdate(row, reply).0;
    forall k | 0 <= k < |c'.keyset| && k != row
      ensures c'.RowAgrees(k) && c'.RowCtid(k) == c.RowCtid(k) && c'.Deleted(k) == c.Deleted(k)
      ensures c'.PublicRow(k) == c.PublicRow(k) && c'.RowCtid(k) != Some(reply.newCtid)
    {
      RowBesideUpdate(c, row, reply, k);
    }
    assert c'.RowAgrees(row) && c.RowAgrees(row);
  }

  lemma UpdateAgrees(c: Cursor, row: nat, reply: Reply)
    requires c.Agrees() && row < |c.keyset| && reply.newCtid !in c.table.used
    ensures var (c', result) := c.PositionedUpdate(row, reply);
            var assignments := Assignments(c.bindings, c.publicColumns);
            && c'.Agrees() && c'.OtherRows() == c.OtherRows()
            && (result == Done <==> assignments == [] || !reply.refused)
            && (!UpdateApplies(c, row, reply) ==> c' == c)
            && (UpdateApplies(c, row, reply) ==>
                  c'.Grid() == c.Grid()[row := Some(Assign(c.PublicRow(row), assignments))])
  {
    hide Cursor.Grid, Cursor.OtherRows;
    assert c.RowAgrees(row);
    if UpdateApplies(c, row, reply) {
      UpdatedRow(c, row, reply);
      UpdateChangesRow(c, row, reply);
    }
  }

  lemma RowAfterDelete(c: Cursor, row: nat, reply: Reply, k: nat)
    requires c.Agrees() && row < |c.keyset| && k < |c.keyset| && !reply.refused
    ensures var c' := c.PositionedDelete(row, reply).0;
            && c'.WellFormed() && |c'.keyset| == |c.keyset| && c'.RowAgrees(k)
            && c'.RowCtid(k) == c.RowCtid(k) && c'.PublicRow(k) == c.PublicRow(k)
            && c'.Deleted(k) == (c.Deleted(k) || k == row)
  {
    assert c.RowAgrees(row) && c.RowAgrees(k);
    if k != row && !c.Deleted(k) && !c.Deleted(row) {
      assert c.RowCtid(k) != c.RowCtid(row);
    }
  }

  lemma DeleteAgrees(c: Cursor, row: nat, reply: Reply)
    requires c.Agrees() && row < |c.keyset|
    ensures var (c', result) := c.PositionedDelete(row, reply);
            && c'.Agrees() && c'.OtherRows() == c.OtherRows()
            && (result == Done <==> !reply.refused)
            && (reply.refused ==> c' == c)
            && (!reply.refused ==> c'.Grid() == c.Grid()[row := None])
  {
    hide Cursor.RowCtid, Cursor.PublicRow;
    var c' := c.PositionedDelete(row, reply).0;
    assert c.RowAgrees(row);
    if !reply.refused {
      forall k | 0 <= k < |c.keyset|
        ensures c'.RowAgrees(k) && c'.RowCtid(k) == c.RowCtid(k) && c'.PublicRow(k) == c.PublicRow(k)
        ensures c'.Deleted(k) == (c.Deleted(k) || k == row)
      {
        RowAfterDelete(c, row, reply, k);
      }
    }
  }

  // ---- Runs of requests on an open cursor ----

  datatype Request =
    | SetPosRequest(rowNumber: nat, operation: Operation, reply: Reply)
    | ScrollRequest(orientation: Orientation)
    | FetchRequest
    | BindRequest(bindings: seq<Binding>)
    | ArraySizeRequest(size: nat)

  function Step(c: Cursor, request: Request): Cursor
    requires c.WellFormed()
  {
    match request
    case SetPosRequest(rowNumber, operation, reply) => c.SetPos(rowNumber, operation, reply).0
    case ScrollRequest(orientation) => c.ExtendedFetch(orientation).0
    case FetchRequest => c.FetchNextRow().0
    case BindRequest(bindings) => c.(bindings := bindings)
    case ArraySizeRequest(size) => c.(rowArraySize := size)
  }

  // The server puts an updated row where no row has ever been.
  predicate FreshReply(c: Cursor, request: Request) {
    request.SetPosRequest? && request.operation.UpdateRow? ==> request.reply.newCtid !in c.table.used
  }

  // What a request does to the rows, as the application asked for it.
  datatype Change = NoChange | SetColumns(row: nat, assignments: seq<Assignment>) | Remove(row: nat)

  function ChangeOf(c: Cursor, request: Request): Change {
    if !request.SetPosRequest? || !c.updatable || request.reply.refused then NoChange
    else
      var row := c.TargetRow(request.rowNumber);
      if row < 0 || row >= |c.keyset| then NoChange
      else if request.operation.DeleteRow? then Remove(row)
      else if request.operation.UpdateRow? then SetColumns(row, Assignments(c.bindings, c.publicColumns))
      else NoChange
  }

  // A row that is gone stays gone.
  ghost function Apply(grid: seq<Option<Row>>, change: Change): seq<Option<Row>> {
    match change
    case NoChange => grid
    case Remove(row) => if row < |grid| then grid[row := None] else grid
    case SetColumns(row, assignments) =>
      if row < |grid| && grid[row].Some? then grid[row := Some(Assign(grid[row].value, assignments))] else grid
  }

  ghost function Effect(c: Cursor, request: Request): seq<Option<Row>>
    requires c.WellFormed()
  {
    Apply(c.Grid(), ChangeOf(c, request))
  }

  // ---- What the fetches deliver ----

  ghost predicate LiveRows(keyset: seq<KeysetRow>, rows: seq<nat>, lo: nat, hi: nat) {
    && (forall k :: 0 <= k < |rows| ==> lo <= rows[k] < hi <= |keyset| && !keyset[rows[k]].deleted)
    && (forall j, k :: 0 <= j < k < |rows| ==> rows[j] < rows[k])
  }

  lemma {:induction false} LiveFromRows(keyset: seq<KeysetRow>, i: nat)
    ensures LiveRows(keyset, LiveFrom(keyset, i), i, |keyset|)
    decreases |keyset| - i
  {
    hide LiveRows;
    if i >= |keyset| {
      NoLiveRows(keyset, i, |keyset|);
    } else {
      LiveFromRows(keyset, i + 1);
      LiveRowPrepended(keyset, LiveFrom(keyset, i + 1), i);
    }
  }

  lemma LiveRowPrepended(keyset: seq<KeysetRow>, rows: seq<nat>, i: nat)
    requires i < |keyset| && LiveRows(keyset, rows, i + 1, |keyset|)
    ensures LiveRows(keyset, rows, i, |keyset|)
    ensures !keyset[i].deleted ==> LiveRows(keyset, [i] + rows, i, |keyset|)
  {
    var more := [i] + rows;
    forall k | 0 <= k < |more| ensures i <= more[k] < |keyset| && (k > 0 ==> more[k] == rows[k - 1]) {
    }
    forall j, k | 0 <= j < k < |more| ensures more[j] < more[k] {
      assert more[k] == rows[k - 1];
    }
  }

  lemma {:induction false} LiveBelowRows(keyset: seq<KeysetRow>, i: nat)
    requires i <= |keyset|
    ensures LiveRows(keyset, LiveBelow(keyset, i), 0, i)
  {
    hide LiveRows;
    if i == 0 {
      NoLiveRows(keyset, 0, 0);
    } else {
      LiveBelowRows(keyset, i - 1);
      LiveRowAppended(keyset, LiveBelow(keyset, i - 1), i - 1);
    }
  }

  lemma NoLiveRows(keyset: seq<KeysetRow>, lo: nat, hi: nat)
    ensures LiveRows(keyset, [], lo, hi)
  {
  }

  lemma LiveRowAppended(keyset: seq<KeysetRow>, rows: seq<nat>, i: nat)
    requires i < |keyset| && LiveRows(keyset, rows, 0, i)
    ensures LiveRows(keyset, rows, 0, i + 1)
    ensures !keyset[i].deleted ==> LiveRows(keyset, rows + [i], 0, i + 1)
  {
    var more := rows + [i];
    forall k | 0 <= k < |more| ensures more[k] < i + 1 && (k < |rows| ==> more[k] == rows[k]) {
    }
    forall j, k | 0 <= j < k < |more| ensures more[j] < more[k] {
      assert more[j] == rows[j];
    }
  }

  // Every live row is among those counted.
  lemma CountedFrom(keyset: seq<KeysetRow>, row: nat, i: nat)
    requires row < |keyset| && !keyset[row].deleted
    ensures i <= row ==> row in LiveFrom(keyset, i)
    decreases |keyset| - i
  {
    if i < row {
      CountedFrom(keyset, row, i + 1);
    }
  }

  // Some consecutive ones of the live rows.
  lemma LiveSlice(keyset: seq<KeysetRow>, rows: seq<nat>, lo: nat, hi: nat, a: nat, b: nat)
    requires LiveRows(keyset, rows, lo, hi) && a <= b <= |rows|
    ensures LiveRows(keyset, rows[a..b], 0, |keyset|)
  {
    var part := rows[a..b];
    forall k | 0 <= k < |part| ensures 0 <= part[k] < |keyset| && !keyset[part[k]].deleted {
      assert part[k] == rows[a + k];
    }
    forall j, k | 0 <= j < k < |part| ensures part[j] < part[k] {
      assert part[j] == rows[a + j] && part[k] == rows[a + k];
    }
  }

  lemma FirstAreLive(keyset: seq<KeysetRow>, rows: seq<nat>, lo: nat, hi: nat, size: nat)
    requires LiveRows(keyset, rows, lo, hi)
    ensures LiveRows(keyset, FirstOf(rows, size), 0, |keyset|)
  {
    hide LiveRows;
    LiveSlice(keyset, rows, lo, hi, 0, |FirstOf(rows, size)|);
    assert rows[0..|FirstOf(rows, size)|] == FirstOf(rows, size);
  }

  lemma LastAreLive(keyset: seq<KeysetRow>, rows: seq<nat>, lo: nat, hi: nat, size: nat)
    requires LiveRows(keyset, rows, lo, hi)
    ensures LiveRows(keyset, LastOf(rows, size), 0, |keyset|)
  {
    hide LiveRows;
    LiveSlice(keyset, rows, lo, hi, |rows| - |LastOf(rows, size)|, |rows|);
    assert rows[|rows| - |LastOf(rows, size)|..|rows|] == LastOf(rows, size);
  }

  ghost predicate BlockFrame(c: Cursor, c': Cursor, result: FetchResult) {
    && c' == c.(position := c'.position, rowsetFirst := c'.rowsetFirst, rowsetSize := c'.rowsetSize)
    && c'.WellFormed() && c'.position <= |c.keyset|
    && (result.Rowset? ==>
          && 0 < |result.rows| <= c.BlockSize()
          && LiveRows(c.keyset, result.rows, 0, |c.keyset|)
          && c'.rowsetFirst == result.rows[0] && c'.position == result.rows[|result.rows| - 1])
  }

  lemma DeliveredFrame(c: Cursor, rows: seq<nat>)
    requires c.WellFormed() && 0 < |rows| <= c.BlockSize() && LiveRows(c.keyset, rows, 0, |c.keyset|)
    ensures BlockFrame(c, c.Delivered(rows), Rowset(rows, false))
  {
    hide Rectangular;
    assert rows[0] < |c.keyset| && rows[|rows| - 1] < |c.keyset|;
  }

  // A fetch moves the cursor and nothing else; a block holds live rows in ascending order.
  lemma BlockForwardFrame(c: Cursor, start: nat)
    requires c.WellFormed()
    ensures BlockFrame(c, c.BlockForward(start).0, c.BlockForward(start).1)
  {
    hide LiveFrom, LiveRows, Rectangular;
    var rows := FirstOf(LiveFrom(c.keyset, start), c.BlockSize());
    LiveFromRows(c.keyset, start);
    FirstAreLive(c.keyset, LiveFrom(c.keyset, start), start, |c.keyset|, c.BlockSize());
    if rows != [] {
      assert c.BlockForward(start) == (c.Delivered(rows), Rowset(rows, false));
      DeliveredFrame(c, rows);
    }
  }

  lemma BlockBackwardFrame(c: Cursor, limit: nat)
    requires c.WellFormed() && limit <= |c.keyset|
    ensures BlockFrame(c, c.BlockBackward(limit).0, c.BlockBackward(limit).1)
  {
    hide LiveBelow, LiveRows, Rectangular;
    var rows := LastOf(LiveBelow(c.keyset, limit), c.BlockSize());
    LiveBelowRows(c.keyset, limit);
    LastAreLive(c.keyset, LiveBelow(c.keyset, limit), 0, limit, c.BlockSize());
    if rows != [] {
      assert c.BlockBackward(limit) == (c.Delivered(rows), Rowset(rows, false));
      DeliveredFrame(c, rows);
    }
  }

  lemma BlockFetchFrame(c: Cursor, orientation: Orientation)
    requires c.WellFormed()
    ensures var (c', result) := c.BlockFetch(orientation);
            if result.FetchError? then c' == c else BlockFrame(c, c', result)
  {
    match orientation
    case First => BlockForwardFrame(c, 0);
    case Next => BlockForwardFrame(c, if c.position < 0 then 0 else c.position + 1);
    case Last => BlockBackwardFrame(c, |c.keyset|);
    case Prior => BlockBackwardFrame(c, BackwardLimit(c));
    case _ =>
  }

  ghost predicate OnlyMoved(c: Cursor, c': Cursor) {
    c'.WellFormed() && c' == c.(position := c'.position, rowsetFirst := c'.rowsetFirst, rowsetSize := c'.rowsetSize)
  }

  lemma LandOnFrame(c: Cursor, target: int, clamped: bool)
    requires c.WellFormed()
    ensures OnlyMoved(c, c.LandOn(target, clamped).0)
  {
  }

  lemma FetchFrame(c: Cursor, orientation: Orientation)
    requires c.WellFormed()
    ensures OnlyMoved(c, c.ExtendedFetch(orientation).0)
  {
    BlockFetchFrame(c, orientation);
    LandOnFrame(c, c.ScrollTarget(orientation).0, c.ScrollTarget(orientation).1);
  }

  lemma NextRowFrame(c: Cursor)
    requires c.WellFormed()
    ensures OnlyMoved(c, c.FetchNextRow().0)
  {
    BlockFetchFrame(c, Next);
    LandOnFrame(c, c.position + 1, false);
  }

  // ---- The overlay agrees with the server in every run ----

  lemma StepAgrees(c: Cursor, request: Request)
    requires c.Agrees() && FreshReply(c, request)
    ensures Step(c, request).Agrees()
    ensures Step(c, request).OtherRows() == c.OtherRows()
    ensures Step(c, request).Grid() == Effect(c, request)
  {
    match request
    case SetPosRequest(rowNumber, operation, reply) => SetPosAgrees(c, rowNumber, operation, reply);
    case ScrollRequest(orientation) =>
      FetchFrame(c, orientation);
      FrameAgrees(c, Step(c, request));
    case FetchRequest =>
      NextRowFrame(c);
      FrameAgrees(c, Step(c, request));
    case BindRequest(_) => FrameAgrees(c, Step(c, request));
    case ArraySizeRequest(_) => FrameAgrees(c, Step(c, request));
  }

  lemma SetPosAgrees(c: Cursor, rowNumber: nat, operation: Operation, reply: Reply)
    requires c.Agrees() && FreshReply(c, SetPosRequest(rowNumber, operation, reply))
    ensures c.SetPos(rowNumber, operation, reply).0.Agrees()
    ensures c.SetPos(rowNumber, operation, reply).0.OtherRows() == c.OtherRows()
    ensures c.SetPos(rowNumber, operation, reply).0.Grid() == Effect(c, SetPosRequest(rowNumber, operation, reply))
  {
    var row := c.TargetRow(rowNumber);
    if c.updatable && 0 <= row < |c.keyset| && operation.UpdateRow? {
      UpdateAgrees(c, row, reply);
    } else if c.updatable && 0 <= row < |c.keyset| && operation.DeleteRow? {
      DeleteAgrees(c, row, reply);
    } else {
      FrameAgrees(c, c.SetPos(rowNumber, operation, reply).0);
    }
  }

  lemma FrameAgrees(c: Cursor, c': Cursor)
    requires c.Agrees() && c'.WellFormed()
    requires c'.base == c.base && c'.keyset == c.keyset && c'.table == c.table && c'.publicColumns == c.publicColumns
    ensures c'.Agrees() && c'.OtherRows() == c.OtherRows() && c'.Grid() == c.Grid()
  {
    forall k | 0 <= k < |c'.keyset|
      ensures c'.RowAgrees(k) && c'.RowCtid(k) == c.RowCtid(k) && c'.Deleted(k) == c.Deleted(k)
      ensures c'.PublicRow(k) == c.PublicRow(k)
    {
      assert c.RowAgrees(k);
    }
    assert c'.Grid() == c.Grid();
  }

  lemma SetPosWellFormed(c: Cursor, rowNumber: nat, operation: Operation, reply: Reply)
    requires c.WellFormed()
    ensures c.SetPos(rowNumber, operation, reply).0.WellFormed()
    ensures |c.SetPos(rowNumber, operation, reply).0.keyset| == |c.keyset|
  {
    hide Assign, Assignments, Update, Delete, Cursor.RowCtid;
  }

  lemma StepWellFormed(c: Cursor, request: Request)
    requires c.WellFormed()
    ensures Step(c, request).WellFormed() && |Step(c, request).keyset| == |c.keyset|
  {
    match request
    case SetPosRequest(rowNumber, operation, reply) => SetPosWellFormed(c, rowNumber, operation, reply);
    case ScrollRequest(orientation) => FetchFrame(c, orientation);
    case FetchRequest => NextRowFrame(c);
    case _ =>
  }

  function Run(c: Cursor, requests: seq<Request>): (last: Cursor)
    requires c.WellFormed()
    ensures last.WellFormed() && |last.keyset| == |c.keyset|
    decreases |requests|
  {
    if requests == [] then c
    else
      StepWellFormed(c, requests[0]);
      Run(Step(c, requests[0]), requests[1..])
  }

  ghost predicate FreshReplies(c: Cursor, requests: seq<Request>)
    requires c.WellFormed()
    decreases |requests|
  {
    requests == [] ||
    (StepWellFormed(c, requests[0]);
     FreshReply(c, requests[0]) && FreshReplies(Step(c, requests[0]), requests[1..]))
  }

  function Opened(base: seq<Row>, publicColumns: nat, rowArraySize: nat, table: Table): Cursor {
    Cursor(base, publicColumns, false, true, false, seq(|base|, _ => KeysetRow(false, None)),
           -1, -1, 0, rowArraySize, [], table)
  }

  // The result of SELECT *, ctid: a row of the table, with its ctid, at most once.
  ghost predicate SelectedFrom(base: seq<Row>, publicColumns: nat, table: Table) {
    && (forall k :: 0 <= k < |base| ==>
          && |base[k]| == publicColumns + 1 && base[k][publicColumns].Text?
          && base[k][publicColumns].text in table.rows
          && table.rows[base[k][publicColumns].text] == base[k][..publicColumns])
    && (forall j, k :: 0 <= j < k < |base| ==> base[j][publicColumns] != base[k][publicColumns])
    && table.rows.Keys <= table.used
  }

  // The changes of a run, each resolved where the cursor stands when it is requested.
  function Changes(c: Cursor, requests: seq<Request>): seq<Change>
    requires c.WellFormed()
    decreases |requests|
  {
    if requests == [] then []
    else
      StepWellFormed(c, requests[0]);
      [ChangeOf(c, requests[0])] + Changes(Step(c, requests[0]), requests[1..])
  }

  ghost function ApplyAll(grid: seq<Option<Row>>, changes: seq<Change>): seq<Option<Row>>
    decreases |changes|
  {
    if changes == [] then grid else ApplyAll(Apply(grid, changes[0]), changes[1..])
  }

  lemma {:induction false} RunAgrees(c: Cursor, requests: seq<Request>)
    requires c.Agrees() && FreshReplies(c, requests)
    ensures Run(c, requests).Agrees() && Run(c, requests).OtherRows() == c.OtherRows()
    ensures Run(c, requests).Grid() == ApplyAll(c.Grid(), Changes(c, requests))
    ensures |Run(c, requests).keyset| == |c.keyset|
    decreases |requests|
  {
    if requests != [] {
      StepWellFormed(c, requests[0]);
      StepAgrees(c, requests[0]);
      RunAgrees(Step(c, requests[0]), requests[1..]);
    }
  }

  /**
   The overlay hides that the buffered result cannot change. After any run of positioned
   updates and deletes, refreshes and fetches on an updatable cursor: the live rows have
   pairwise distinct ctids, each ctid names where its row lives now, the value read through the
   overlay is the value the server holds, and no row outside the cursor has been touched. The rows
   themselves are what the accepted changes, applied in order, make of the rows first read.
   */
  lemma KeysetRefinesTable(base: seq<Row>, publicColumns: nat, rowArraySize: nat, table: Table, requests: seq<Request>)
    requires SelectedFrom(base, publicColumns, table)
    requires FreshReplies(Opened(base, publicColumns, rowArraySize, table), requests)
    ensures var start := Opened(base, publicColumns, rowArraySize, table);
            var c := Run(start, requests);
            && c.Agrees() && |c.keyset| == |base| && c.OtherRows() == start.OtherRows()
            && c.Grid() == ApplyAll(seq(|base|, k requires 0 <= k < |base| => Some(base[k][..publicColumns])),
                                    Changes(start, requests))
  {
    var start := Opened(base, publicColumns, rowArraySize, table);
    forall row | 0 <= row < |base|
      ensures start.RowAgrees(row) && start.RowCtid(row) == Some(base[row][publicColumns].text)
    {
    }
    assert start.Grid() == seq(|base|, k requires 0 <= k < |base| => Some(base[k][..publicColumns]));
    RunAgrees(start, requests);
  }

  // A refreshed row that is not deleted is the row of the server.
  lemma RefreshReadsServer(c: Cursor, rowNumber: nat, reply: Reply)
    requires c.Agrees() && c.updatable && 0 <= c.TargetRow(rowNumber) < |c.keyset|
    requires !c.Deleted(c.TargetRow(rowNumber))
    ensures var ctid := c.RowCtid(c.TargetRow(rowNumber));
            && ctid.Some? && ctid.value in c.table.rows
            && c.SetPos(rowNumber, RefreshRow, reply) == (c, Refreshed(c.table.rows[ctid.value]))
  {
    assert c.RowAgrees(c.TargetRow(rowNumber));
  }

  // ---- Sweeping over the live rows ----

  lemma {:induction false} LiveFromAfter(keyset: seq<KeysetRow>, i: nat, n: nat)
    requires 0 < n <= |LiveFrom(keyset, i)|
    ensures LiveFrom(keyset, LiveFrom(keyset, i)[n - 1] + 1) == LiveFrom(keyset, i)[n..]
    decreases |keyset| - i
  {
    var live, rest := LiveFrom(keyset, i), LiveFrom(keyset, i + 1);
    if keyset[i].deleted {
      LiveFromAfter(keyset, i + 1, n);
    } else if n > 1 {
      LiveFromAfter(keyset, i + 1, n - 1);
      assert live[n - 1] == rest[n - 2] && live[n..] == rest[n - 1..];
    }
  }

  lemma LiveBelowBefore(keyset: seq<KeysetRow>, i: nat, n: nat)
    requires i <= |keyset| && n < |LiveBelow(keyset, i)|
    ensures LiveBelow(keyset, i)[n] <= |keyset|
    ensures LiveBelow(keyset, LiveBelow(keyset, i)[n]) == LiveBelow(keyset, i)[..n]
  {
    LiveBelowRows(keyset, i);
    if i > 0 {
      if keyset[i - 1].deleted || n < |LiveBelow(keyset, i - 1)| {
        LiveBelowBefore(keyset, i - 1, n);
      }
    }
  }

  // The blocks delivered by fetching until the first no-data.
  function ForwardSweep(c: Cursor): seq<seq<nat>>
    requires c.WellFormed() && c.BlockFetchActive()
    decreases |c.keyset| - c.position
  {
    var (next, result) := c.ExtendedFetch(Next);
    LiveFromRows(c.keyset, if c.position < 0 then 0 else c.position + 1);
    if result.Rowset? then [result.rows] + ForwardSweep(next) else []
  }

  function BackwardLimit(c: Cursor): nat
    requires c.WellFormed()
  {
    if c.rowsetFirst < 0 || c.position >= |c.keyset| then |c.keyset| else c.rowsetFirst
  }

  function BackwardSweep(c: Cursor): seq<seq<nat>>
    requires c.WellFormed() && c.BlockFetchActive()
    decreases BackwardLimit(c)
  {
    var (next, result) := c.ExtendedFetch(Prior);
    LiveBelowRows(c.keyset, BackwardLimit(c));
    if result.Rowset? then [result.rows] + BackwardSweep(next) else []
  }

  /**
   Fetching forward from before the first row delivers every live row exactly once, in
   ascending order, in blocks that are all full except perhaps the last.
   */
  lemma {:induction false} ForwardSweepIsExact(c: Cursor)
    requires c.WellFormed() && c.BlockFetchActive()
    ensures ForwardSweep(c) ==
            Blocks.FromFront(LiveFrom(c.keyset, if c.position < 0 then 0 else c.position + 1), c.BlockSize())
    decreases |c.keyset| - c.position
  {
    hide LiveFrom, Cursor.ExtendedFetch;
    NextStep(c);
    if c.ExtendedFetch(Next).1.Rowset? {
      FrontStep(LiveFrom(c.keyset, if c.position < 0 then 0 else c.position + 1), c.BlockSize());
      ForwardSweepIsExact(c.ExtendedFetch(Next).0);
    }
  }

  lemma NextStep(c: Cursor)
    requires c.WellFormed() && c.BlockFetchActive()
    ensures var live := LiveFrom(c.keyset, if c.position < 0 then 0 else c.position + 1);
            var (next, result) := c.ExtendedFetch(Next);
            if live == [] then result == NoData
            else
              && result == Rowset(FirstOf(live, c.BlockSize()), false)
              && next.WellFormed() && next.keyset == c.keyset && next.rowArraySize == c.rowArraySize && next.updatable
              && c.position < next.position < |c.keyset| && 0 <= next.position
              && LiveFrom(c.keyset, next.position + 1) == live[|result.rows|..]
  {
    hide LiveFrom, LiveRows, Rectangular;
    var start: nat := if c.position < 0 then 0 else c.position + 1;
    ForwardStep(c, start);
    assert c.ExtendedFetch(Next) == c.BlockForward(start);
    BlockForwardFrame(c, start);
  }

  lemma ForwardStep(c: Cursor, start: nat)
    requires c.WellFormed()
    ensures var live := LiveFrom(c.keyset, start);
            var (next, result) := c.BlockForward(start);
            live != [] && c.BlockSize() > 0 ==>
              && result == Rowset(FirstOf(live, c.BlockSize()), false) && result.rows != []
              && start <= next.position < |c.keyset|
              && LiveFrom(c.keyset, next.position + 1) == live[|result.rows|..]
  {
    hide LiveFrom;
    var live := LiveFrom(c.keyset, start);
    LiveFromRows(c.keyset, start);
    if live != [] && c.BlockSize() > 0 {
      LiveFromAfter(c.keyset, start, |FirstOf(live, c.BlockSize())|);
    }
  }

  // Fetching backward from the end delivers the same rows in descending blocks.
  lemma {:induction false} BackwardSweepIsExact(c: Cursor)
    requires c.WellFormed() && c.BlockFetchActive() && !c.forwardOnly
    ensures BackwardSweep(c) == Blocks.FromBack(LiveBelow(c.keyset, BackwardLimit(c)), c.BlockSize())
    decreases BackwardLimit(c)
  {
    hide LiveBelow, Cursor.ExtendedFetch;
    PriorStep(c);
    if c.ExtendedFetch(Prior).1.Rowset? {
      BackStep(LiveBelow(c.keyset, BackwardLimit(c)), c.BlockSize());
      BackwardSweepIsExact(c.ExtendedFetch(Prior).0);
    }
  }

  lemma PriorStep(c: Cursor)
    requires c.WellFormed() && c.BlockFetchActive() && !c.forwardOnly
    ensures var live := LiveBelow(c.keyset, BackwardLimit(c));
            var (next, result) := c.ExtendedFetch(Prior);
            if live == [] then result == NoData
            else
              && result == Rowset(LastOf(live, c.BlockSize()), false)
              && next.WellFormed() && next.keyset == c.keyset && next.rowArraySize == c.rowArraySize
              && next.updatable && !next.forwardOnly && BackwardLimit(next) < BackwardLimit(c)
              && LiveBelow(c.keyset, BackwardLimit(next)) == live[..|live| - |result.rows|]
  {
    var limit := BackwardLimit(c);
    BackwardStep(c, limit);
    assert c.ExtendedFetch(Prior) == c.BlockBackward(limit);
    BlockBackwardFrame(c, limit);
  }

  lemma BackwardStep(c: Cursor, limit: nat)
    requires c.WellFormed() && limit <= |c.keyset|
    ensures var live := LiveBelow(c.keyset, limit);
            var (next, result) := c.BlockBackward(limit);
            live != [] && c.BlockSize() > 0 ==>
              && result == Rowset(LastOf(live, c.BlockSize()), false) && result.rows != []
              && 0 <= next.rowsetFirst < limit && next.position < |c.keyset|
              && LiveBelow(c.keyset, next.rowsetFirst) == live[..|live| - |result.rows|]
  {
    hide LiveBelow;
    var live := LiveBelow(c.keyset, limit);
    LiveBelowRows(c.keyset, limit);
    if live != [] && c.BlockSize() > 0 {
      LiveBelowBefore(c.keyset, limit, |live| - |LastOf(live, c.BlockSize())|);
    }
  }

  lemma {:induction false} LiveEitherWay(keyset: seq<KeysetRow>, i: nat)
    requires i <= |keyset|
    ensures LiveFrom(keyset, 0) == LiveBelow(keyset, i) + LiveFrom(keyset, i)
  {
    if i > 0 {
      LiveEitherWay(keyset, i - 1);
    }
  }

  ghost predicate ExactlyTheLiveRows(keyset: seq<KeysetRow>, rows: seq<nat>) {
    && LiveRows(keyset, rows, 0, |keyset|)
    && forall row :: 0 <= row < |keyset| && !keyset[row].deleted ==> row in rows
  }

  /**
   A sweep in either direction visits every row that is not deleted, each exactly once: forward
   from before the first row, backward from the end of data. Only the last block of a sweep
   may be short.
   */
  lemma SweepsVisitLiveRowsOnce(c: Cursor)
    requires c.WellFormed() && c.BlockFetchActive() && !c.forwardOnly
    ensures c.position == -1 ==>
              && ExactlyTheLiveRows(c.keyset, Blocks.Join(ForwardSweep(c)))
              && Blocks.AllFullButLast(ForwardSweep(c), c.BlockSize())
    ensures c.position >= |c.keyset| ==>
              && ExactlyTheLiveRows(c.keyset, Blocks.JoinBackwards(BackwardSweep(c)))
              && Blocks.AllFullButLast(BackwardSweep(c), c.BlockSize())
  {
    AllLiveRows(c.keyset);
    if c.position == -1 {
      ForwardSweepIsExact(c);
      Blocks.FromFrontPartitions(LiveFrom(c.keyset, 0), c.BlockSize());
    }
    if c.position >= |c.keyset| {
      BackwardSweepIsExact(c);
      Blocks.FromBackPartitions(LiveBelow(c.keyset, |c.keyset|), c.BlockSize());
    }
  }

  lemma AllLiveRows(keyset: seq<KeysetRow>)
    ensures LiveBelow(keyset, |keyset|) == LiveFrom(keyset, 0)
    ensures ExactlyTheLiveRows(keyset, LiveFrom(keyset, 0))
  {
    LiveFromRows(keyset, 0);
    LiveEitherWay(keyset, |keyset|);
    forall row | 0 <= row < |keyset| && !keyset[row].deleted ensures row in LiveFrom(keyset, 0) {
      CountedFrom(keyset, row, 0);
    }
  }

  // Reaching the front forgets where the cursor stands: the next PRIOR starts over at the end.
  lemma PriorWrapsAround(c: Cursor)
    requires c.WellFormed() && c.BlockFetchActive() && !c.forwardOnly && c.ExtendedFetch(Prior).1 == NoData
    ensures var front := c.ExtendedFetch(Prior).0;
            front.position == -1 && front.ExtendedFetch(Prior) == front.ExtendedFetch(Last)
  {
    BlockFetchFrame(c, Prior);
  }

  // ---- Which row a row number names ----

  // Between the first and the last row of a delivered rowset, every live row is delivered.
  ghost predicate Dense(keyset: seq<KeysetRow>, rows: seq<nat>) {
    rows != [] ==>
      forall row :: rows[0] <= row <= rows[|rows| - 1] && row < |keyset| && !keyset[row].deleted ==> row in rows
  }

  lemma RowsetIsDense(c: Cursor, orientation: Orientation)
    requires c.WellFormed() && c.BlockFetchActive() && c.ExtendedFetch(orientation).1.Rowset?
    ensures LiveRows(c.keyset, c.ExtendedFetch(orientation).1.rows, 0, |c.keyset|)
    ensures Dense(c.keyset, c.ExtendedFetch(orientation).1.rows)
  {
    BlockFetchFrame(c, orientation);
    match orientation
    case First => ForwardIsDense(c, 0);
    case Next => ForwardIsDense(c, if c.position < 0 then 0 else c.position + 1);
    case Last => BackwardIsDense(c, |c.keyset|);
    case Prior => BackwardIsDense(c, BackwardLimit(c));
    case _ =>
  }

  lemma ForwardIsDense(c: Cursor, start: nat)
    ensures c.BlockForward(start).1.Rowset? ==> Dense(c.keyset, c.BlockForward(start).1.rows)
  {
    var live := LiveFrom(c.keyset, start);
    assert live != [] ==> start < |c.keyset|;
    hide LiveFrom, LiveBelow, Dense;
    if live != [] {
      var rows := FirstOf(live, c.BlockSize());
      var before := LiveBelow(c.keyset, start);
      LiveEitherWay(c.keyset, start);
      SliceIsDense(c.keyset, |before|, |before| + |rows|);
      assert LiveFrom(c.keyset, 0)[|before|..|before| + |rows|] == rows;
    }
  }

  lemma BackwardIsDense(c: Cursor, limit: nat)
    requires limit <= |c.keyset|
    ensures c.BlockBackward(limit).1.Rowset? ==> Dense(c.keyset, c.BlockBackward(limit).1.rows)
  {
    hide LiveFrom, LiveBelow, Dense;
    if c.BlockBackward(limit).1.Rowset? {
      var before, rows := LiveBelow(c.keyset, limit), c.BlockBackward(limit).1.rows;
      LiveEitherWay(c.keyset, limit);
      SliceIsDense(c.keyset, |before| - |rows|, |before|);
      assert LiveFrom(c.keyset, 0)[|before| - |rows|..|before|] == rows;
    }
  }

  lemma SliceIsDense(keyset: seq<KeysetRow>, a: nat, b: nat)
    requires a <= b <= |LiveFrom(keyset, 0)|
    ensures Dense(keyset, LiveFrom(keyset, 0)[a..b])
  {
    hide LiveFrom, LiveBelow;
    AllLiveRows(keyset);
    var all := LiveFrom(keyset, 0);
    var rows := all[a..b];
    if a < b {
      forall row | rows[0] <= row <= rows[|rows| - 1] && row < |keyset| && !keyset[row].deleted
        ensures row in rows
      {
        InSlice(all, a, b, row);
      }
    }
  }

  lemma InSlice(rows: seq<nat>, a: nat, b: nat, row: nat)
    requires forall j, k :: 0 <= j < k < |rows| ==> rows[j] < rows[k]
    requires a < b <= |rows| && row in rows && rows[a] <= row <= rows[b - 1]
    ensures row in rows[a..b]
  {
    var k := IndexAmong(rows, row);
    assert !(k < a) && !(b - 1 < k);
    assert rows[a..b][k - a] == row;
  }

  lemma IndexAmong(rows: seq<nat>, row: nat) returns (k: nat)
    requires row in rows
    ensures k < |rows| && rows[k] == row
  {
    k :| 0 <= k < |rows| && rows[k] == row;
  }

  /**
   After a block fetch, row number n + 1 of SQLSetPos means the element n of the delivered rowset
   if and only if no deleted row lies among the n rows that follow the first one.
   */
  lemma RowNumberNamesElement(c: Cursor, orientation: Orientation, n: nat)
    requires c.WellFormed() && c.BlockFetchActive() && c.ExtendedFetch(orientation).1.Rowset?
    requires n < |c.ExtendedFetch(orientation).1.rows|
    ensures var (c', result) := c.ExtendedFetch(orientation);
            c'.TargetRow(n + 1) == result.rows[n] <==> NoneDeletedAfter(c.keyset, result.rows[0], n)
  {
    BlockFetchFrame(c, orientation);
    RowsetIsDense(c, orientation);
    GapsAreDeletedRows(c.keyset, c.ExtendedFetch(orientation).1.rows, n);
  }

  /** A block holds no more rows than the array takes, nor than 256, and its extent is remembered. */
  lemma BlockExtent(c: Cursor, orientation: Orientation)
    requires c.WellFormed() && c.BlockFetchActive()
    ensures var (after, result) := c.ExtendedFetch(orientation);
            && (result.Rowset? ==>
                  |result.rows| <= c.rowArraySize && |result.rows| <= 256 && after.rowsetSize == |result.rows|)
            && (result.NoData? ==> after.rowsetSize == 0)
  {
    hide LiveFrom, LiveBelow, Rectangular;
    BlockFetchFrame(c, orientation);
  }

  ghost predicate NoneDeletedAfter(keyset: seq<KeysetRow>, first: nat, n: nat) {
    forall row :: first < row <= first + n ==> row < |keyset| && !keyset[row].deleted
  }

  lemma {:induction false} GapsAreDeletedRows(keyset: seq<KeysetRow>, rows: seq<nat>, n: nat)
    requires n < |rows| && LiveRows(keyset, rows, 0, |keyset|) && Dense(keyset, rows)
    ensures rows[0] + n <= rows[n]
    ensures rows[n] == rows[0] + n <==> NoneDeletedAfter(keyset, rows[0], n)
  {
    if n > 0 {
      GapsAreDeletedRows(keyset, rows, n - 1);
      assert rows[n - 1] < rows[n];
      if rows[n] == rows[0] + n {
        assert NoneDeletedAfter(keyset, rows[0], n - 1);
      }
      if NoneDeletedAfter(keyset, rows[0], n) {
        NextIsDelivered(keyset, rows, n);
      }
    }
  }

  lemma NextIsDelivered(keyset: seq<KeysetRow>, rows: seq<nat>, n: nat)
    requires 0 < n < |rows| && LiveRows(keyset, rows, 0, |keyset|) && Dense(keyset, rows)
    requires NoneDeletedAfter(keyset, rows[0], n) && rows[n - 1] == rows[0] + n - 1
    ensures rows[n] == rows[0] + n
  {
    var next, last := rows[0] + n, |rows| - 1;
    assert rows[n - 1] < rows[n] && (n < last ==> rows[n] < rows[last]);
    assert next < |keyset| && !keyset[next].deleted;
    assert next in rows;
    var k := IndexAmong(rows, next);
    assert !(k < n - 1) && k != n - 1;
    assert rows[n] <= rows[k];
  }

  /** Row number 0 stands for the first row of the rowset: it does what row number 1 does. */
  lemma RowNumberZeroIsOne(c: Cursor, operation: Operation, reply: Reply)
    requires c.WellFormed()
    ensures c.SetPos(0, operation, reply) == c.SetPos(1, operation, reply)
  {
  }

  // A block fetch leaves rows and table alone, and the row number names the element.
  lemma FetchedElement(c: Cursor, orientation: Orientation, n: nat, rowNumber: nat)
    requires c.Agrees() && c.BlockFetchActive() && c.ExtendedFetch(orientation).1.Rowset?
    requires n < |c.ExtendedFetch(orientation).1.rows| && (rowNumber == n + 1 || (rowNumber == 0 && n == 0))
    requires NoneDeletedAfter(c.keyset, c.ExtendedFetch(orientation).1.rows[0], n)
    ensures var (f, result) := c.ExtendedFetch(orientation);
            var row := result.rows[n];
            && f.Agrees() && f.Grid() == c.Grid() && f.OtherRows() == c.OtherRows() && f.updatable
            && f.bindings == c.bindings && f.publicColumns == c.publicColumns && f.keyset == c.keyset
            && f.table == c.table
            && f.TargetRow(rowNumber) == row < |c.keyset| == |c.Grid()| && !f.Deleted(row)
            && c.Grid()[row] == Some(f.PublicRow(row))
  {
    hide Cursor.ExtendedFetch, Cursor.RowCtid, Cursor.OtherRows, NoneDeletedAfter, LiveFrom, LiveBelow;
    var (f, result) := c.ExtendedFetch(orientation);
    FetchFrame(c, orientation);
    FrameAgrees(c, f);
    RowsetIsDense(c, orientation);
    RowNumberNamesElement(c, orientation, n);
    assert !c.keyset[result.rows[n]].deleted;
    assert f.FullRow(result.rows[n]) == c.FullRow(result.rows[n]);
  }

  /**
   What the operations do behind a block fetch, to the rows and to the table: a row number that
   names the element n of the delivered rowset, which 1 and 0 always do for the first one, deletes,
   updates, reads or moves to exactly that row.
   */
  lemma SetPosOnElement(c: Cursor, orientation: Orientation, n: nat, rowNumber: nat, reply: Reply)
    requires c.Agrees() && c.BlockFetchActive() && c.ExtendedFetch(orientation).1.Rowset?
    requires n < |c.ExtendedFetch(orientation).1.rows| && reply.newCtid !in c.table.used
    requires NoneDeletedAfter(c.keyset, c.ExtendedFetch(orientation).1.rows[0], n)
    requires rowNumber == n + 1 || (rowNumber == 0 && n == 0)
    ensures var (f, result) := c.ExtendedFetch(orientation);
            var row, grid, assignments := result.rows[n], c.Grid(), Assignments(c.bindings, c.publicColumns);
            && f.Agrees() && row < |grid| && grid[row].Some?
            && SetPosGives(f, rowNumber, DeleteRow, reply, c, if reply.refused then grid else grid[row := None],
                           if reply.refused then Failed("HY000") else Done)
            && SetPosGives(f, rowNumber, UpdateRow, reply, c,
                           if reply.refused then grid else grid[row := Some(Assign(grid[row].value, assignments))],
                           if reply.refused && assignments != [] then Failed("HY000") else Done)
            && f.SetPos(rowNumber, RefreshRow, reply) == (f, Refreshed(grid[row].value))
            && f.SetPos(rowNumber, PositionRow, reply) == (f.(position := row), Done)
  {
    hide Cursor.ExtendedFetch, Cursor.PositionedUpdate, Cursor.PositionedDelete, Cursor.TargetRow, Cursor.RowCtid;
    hide Cursor.PublicRow, Cursor.Grid, Cursor.OtherRows, Cursor.RowAgrees, Assign, Assignments, NoneDeletedAfter;
    hide Cursor.DistinctCtids, Rectangular;
    FetchedElement(c, orientation, n, rowNumber);
    var (f, result) := c.ExtendedFetch(orientation);
    UpdateGives(f, result.rows[n], reply);
    DeleteGives(f, result.rows[n], reply);
  }

  // The operation leads to these rows, leaves the rest of the table as `c` has it, and answers.
  ghost predicate SetPosGives(f: Cursor, rowNumber: nat, operation: Operation, reply: Reply,
                              c: Cursor, grid: seq<Option<Row>>, answer: SetPosResult)
    requires f.WellFormed() && c.WellFormed()
  {
    var (after, given) := f.SetPos(rowNumber, operation, reply);
    after.Agrees() && after.Grid() == grid && after.OtherRows() == c.OtherRows() && given == answer
  }

  lemma UpdateGives(c: Cursor, row: nat, reply: Reply)
    requires c.Agrees() && row < |c.keyset| && reply.newCtid !in c.table.used && !c.Deleted(row)
    ensures var (after, given) := c.PositionedUpdate(row, reply);
            var assignments := Assignments(c.bindings, c.publicColumns);
            && after.Agrees() && after.OtherRows() == c.OtherRows()
            && after.Grid() == (if reply.refused then c.Grid()
                                else c.Grid()[row := Some(Assign(c.PublicRow(row), assignments))])
            && given == if reply.refused && assignments != [] then Failed("HY000") else Done
  {
    hide Cursor.Grid, Cursor.OtherRows, Cursor.RowCtid, Cursor.PublicRow;
    UpdateAgrees(c, row, reply);
    assert c.RowAgrees(row);
    if Assignments(c.bindings, c.publicColumns) == [] {
      NothingAssigned(c, row);
    }
  }

  lemma DeleteGives(c: Cursor, row: nat, reply: Reply)
    requires c.Agrees() && row < |c.keyset|
    ensures var (after, given) := c.PositionedDelete(row, reply);
            && after.Agrees() && after.OtherRows() == c.OtherRows()
            && after.Grid() == (if reply.refused then c.Grid() else c.Grid()[row := None])
            && given == if reply.refused then Failed("HY000") else Done
  {
    hide Cursor.Grid, Cursor.OtherRows, Cursor.RowCtid, Cursor.PublicRow;
    DeleteAgrees(c, row, reply);
    assert c.RowAgrees(row);
  }

  lemma NothingAssigned(c: Cursor, row: nat)
    requires c.Agrees() && row < |c.keyset| && !c.Deleted(row)
    ensures Assign(c.PublicRow(row), []) == c.PublicRow(row)
    ensures c.Grid()[row := Some(c.PublicRow(row))] == c.Grid()
  {
  }

  /**
   A row without a ctid is out of the server's reach: an UPDATE is refused here and a DELETE only
   marks it.
   */
  lemma RowWithoutCtid(c: Cursor, rowNumber: nat, reply: Reply)
    requires c.WellFormed() && c.updatable && 0 <= c.TargetRow(rowNumber) < |c.keyset|
    requires c.RowCtid(c.TargetRow(rowNumber)).None?
    ensures c.SetPos(rowNumber, UpdateRow, reply) == (c, Failed("HY000"))
    ensures var (after, answer) := c.SetPos(rowNumber, DeleteRow, reply);
            && answer == Done && after.table == c.table && |after.keyset| == |c.keyset|
            && forall k :: 0 <= k < |c.keyset| ==> after.Deleted(k) == (c.Deleted(k) || k == c.TargetRow(rowNumber))
  {
    hide Cursor.RowCtid, Assignments, Assign;
  }

  /**
   Which requests fail, and how: nothing is ever changed by one that does. The cursor must be
   updatable and the row number name a row before the operation is looked at, and the server is asked
   only by a DELETE and by an UPDATE of some column.
   */
  lemma SetPosAnswers(c: Cursor, rowNumber: nat, operation: Operation, reply: Reply)
    requires c.Agrees()
    ensures var (after, answer) := c.SetPos(rowNumber, operation, reply);
            var named := c.updatable && 0 <= c.TargetRow(rowNumber) < |c.keyset|;
            var asks := operation.DeleteRow? ||
                        (operation.UpdateRow? && Assignments(c.bindings, c.publicColumns) != []);
            && (answer.Failed? ==> after == c)
            && (answer == Failed("HY092") <==> !c.updatable || (named && operation.OtherOperation?))
            && (answer == Failed("HY107") <==> c.updatable && !named)
            && (answer == Failed("HY000") <==> named && asks && reply.refused)
            && (answer.Refreshed? <==> named && operation.RefreshRow?)
  {
    hide Cursor.RowCtid, Cursor.PublicRow, Assignments, Assign;
    if 0 <= c.TargetRow(rowNumber) < |c.keyset| {
      assert c.RowAgrees(c.TargetRow(rowNumber));
    }
  }

  // ---- Which row a row number names after a single-row fetch ----

  // What a fetch reports; other requests fetch nothing.
  function Outcome(c: Cursor, request: Request): FetchResult
    requires c.WellFormed()
  {
    match request
    case ScrollRequest(orientation) => c.ExtendedFetch(orientation).1
    case FetchRequest => c.FetchNextRow().1
    case _ => NoData
  }

  predicate Fetches(request: Request) {
    request.ScrollRequest? || request.FetchRequest?
  }

  // What the application saw of the block fetches of a run.
  datatype Event = BlockDelivered(rows: seq<nat>) | BlockExhausted(backward: bool) | NoBlockFetch

  function EventOf(c: Cursor, request: Request): Event
    requires c.WellFormed()
  {
    if !Fetches(request) || !c.BlockFetchActive() then NoBlockFetch
    else
      match Outcome(c, request)
      case Rowset(rows, _) => BlockDelivered(rows)
      case NoData => BlockExhausted(request.ScrollRequest? && request.orientation in {Prior, Last})
      case FetchError(_) => NoBlockFetch
  }

  function History(c: Cursor, requests: seq<Request>): seq<Event>
    requires c.WellFormed()
    decreases |requests|
  {
    if requests == [] then []
    else
      StepWellFormed(c, requests[0]);
      [EventOf(c, requests[0])] + History(Step(c, requests[0]), requests[1..])
  }

  // The first row of the last block delivered, forgotten when a backward fetch found nothing.
  function LastBlockFirst(start: Option<nat>, events: seq<Event>): Option<nat>
    decreases |events|
  {
    if events == [] then start
    else
      var next := match events[0]
                  case BlockDelivered(rows) => if rows == [] then start else Some(rows[0])
                  case BlockExhausted(backward) => if backward then None else start
                  case NoBlockFetch => start;
      LastBlockFirst(next, events[1..])
  }

  predicate Remembers(c: Cursor, first: Option<nat>) {
    c.rowsetFirst == if first.Some? then first.value else -1
  }

  lemma LastOfOne(first: Option<nat>, event: Event)
    ensures LastBlockFirst(first, [event]) ==
            match event
            case BlockDelivered(rows) => if rows == [] then first else Some(rows[0])
            case BlockExhausted(backward) => if backward then None else first
            case NoBlockFetch => first
  {
    assert forall next: Option<nat> :: LastBlockFirst(next, []) == next;
  }

  // Where a block fetch leaves the first row.
  lemma BlockRemembers(c: Cursor, orientation: Orientation, first: Option<nat>)
    requires c.WellFormed() && Remembers(c, first)
    ensures var (c', result) := c.BlockFetch(orientation);
            match result
            case Rowset(rows, _) => rows != [] && Remembers(c', Some(rows[0]))
            case NoData => Remembers(c', if orientation in {Prior, Last} then None else first)
            case FetchError(_) => Remembers(c', first)
  {
    hide LiveFrom, LiveBelow, LiveRows, Rectangular, FirstOf, LastOf;
    BlockFetchFrame(c, orientation);
  }

  lemma PlainRemembers(c: Cursor, request: Request, first: Option<nat>)
    requires c.WellFormed() && Remembers(c, first) && !(Fetches(request) && c.BlockFetchActive())
    ensures Remembers(Step(c, request), first)
  {
    hide Assign, Assignments, Update, Delete, Cursor.RowCtid, Rectangular, Cursor.BlockFetch, Cursor.ScrollTarget;
  }

  lemma StepRemembers(c: Cursor, request: Request, first: Option<nat>)
    requires c.WellFormed() && Remembers(c, first)
    ensures Remembers(Step(c, request), LastBlockFirst(first, [EventOf(c, request)]))
  {
    hide LastBlockFirst, Remembers, Rectangular, Cursor.BlockFetch, Cursor.SetPos, Cursor.LandOn, Cursor.RowsetAt;
    LastOfOne(first, EventOf(c, request));
    if Fetches(request) && c.BlockFetchActive() {
      var orientation := if request.ScrollRequest? then request.orientation else Next;
      BlockRemembers(c, orientation, first);
      SteppedBlock(c, request, orientation);
    } else {
      PlainRemembers(c, request, first);
    }
  }

  lemma SteppedBlock(c: Cursor, request: Request, orientation: Orientation)
    requires c.WellFormed() && c.BlockFetchActive() && Fetches(request)
    requires orientation == if request.ScrollRequest? then request.orientation else Next
    ensures (Step(c, request), Outcome(c, request)) == c.BlockFetch(orientation) ||
            (c.forwardOnly && Step(c, request) == c && Outcome(c, request).FetchError?)
  {
    hide Cursor.BlockFetch, Cursor.LandOn, Cursor.RowsetAt, Rectangular;
  }

  lemma {:induction false} RunRemembers(c: Cursor, requests: seq<Request>, first: Option<nat>)
    requires c.WellFormed() && Remembers(c, first)
    ensures Remembers(Run(c, requests), LastBlockFirst(first, History(c, requests)))
    decreases |requests|
  {
    hide EventOf, Step, Remembers;
    if requests != [] {
      StepWellFormed(c, requests[0]);
      StepRemembers(c, requests[0], first);
      var next := LastBlockFirst(first, [EventOf(c, requests[0])]);
      assert History(c, requests)[1..] == History(Step(c, requests[0]), requests[1..]);
      RunRemembers(Step(c, requests[0]), requests[1..], next);
    }
  }

  /**
   After any run on a cursor, a single-row fetch delivers one row, and row number 1 of SQLSetPos
   names that row if and only if no block rowset is remembered from before, or one that begins
   with the same row.
   */
  lemma RowNumberAfterSingleFetch(base: seq<Row>, publicColumns: nat, rowArraySize: nat, table: Table,
                                  requests: seq<Request>, request: Request)
    requires Opened(base, publicColumns, rowArraySize, table).WellFormed()
    requires var c := Run(Opened(base, publicColumns, rowArraySize, table), requests);
             Fetches(request) && c.rowArraySize <= 1 && Outcome(c, request).Rowset?
    ensures var start := Opened(base, publicColumns, rowArraySize, table);
            var c := Run(start, requests);
            var rows := Outcome(c, request).rows;
            var last := LastBlockFirst(None, History(start, requests));
            && |rows| == 1
            && (Step(c, request).TargetRow(1) == rows[0] <==> last == None || last == Some(rows[0]))
  {
    hide History, LastBlockFirst, Run;
    RunRemembers(Opened(base, publicColumns, rowArraySize, table), requests, None);
  }

  const THREE_ROWS: seq<Row> := [[Null, Text("a")], [Null, Text("b")], [Null, Text("c")]]
  const THREE_TABLE := Table(map["a" := [Null], "b" := [Null], "c" := [Null]], {"a", "b", "c"})

  lemma ThreeLive(keyset: seq<KeysetRow>)
    requires |keyset| == 3 && forall k :: 0 <= k < 3 ==> !keyset[k].deleted
    ensures LiveFrom(keyset, 0) == [0, 1, 2]
  {
    assert LiveFrom(keyset, 3) == [] && LiveFrom(keyset, 2) == [2] && LiveFrom(keyset, 1) == [1, 2];
  }

  lemma FirstBlockOfThree(c: Cursor)
    requires c == Opened(THREE_ROWS, 1, 2, THREE_TABLE)
    ensures Step(c, ScrollRequest(Next)) == c.(rowsetFirst := 0, rowsetSize := 2, position := 1)
  {
    ThreeLive(c.keyset);
    hide LiveFrom;
    assert FirstOf([0, 1, 2], 2) == [0, 1];
    assert c.BlockForward(0).0 == c.Delivered([0, 1]);
  }

  // With the array size set back to one, the third row is fetched.
  function ThirdFetched(): Cursor {
    Opened(THREE_ROWS, 1, 1, THREE_TABLE).(rowsetFirst := 0, rowsetSize := 2, position := 1)
  }

  lemma ThreeSelected()
    ensures SelectedFrom(THREE_ROWS, 1, THREE_TABLE) && Opened(THREE_ROWS, 1, 2, THREE_TABLE).WellFormed()
    ensures ThirdFetched().WellFormed() && ThirdFetched().(position := 2).WellFormed()
  {
  }

  lemma ThirdOfThree()
    ensures ThirdFetched().WellFormed() && Outcome(ThirdFetched(), ScrollRequest(Next)) == Rowset([2], false)
    ensures Step(ThirdFetched(), ScrollRequest(Next)) == ThirdFetched().(position := 2)
  {
    ThreeSelected();
    hide SelectedFrom, Rectangular;
    assert Interval(2, 3) == [2];
  }

  lemma FirstOfThreeDeleted()
    ensures var c := ThirdFetched().(position := 2);
            c.WellFormed() && c.SetPos(1, DeleteRow, Reply(false, "")).0.table == Delete(THREE_TABLE, "a")
  {
    ThreeSelected();
    hide SelectedFrom, Rectangular, Delete;
    assert ThirdFetched().RowCtid(0) == Some("a");
  }

  lemma ArraySizeStep(c: Cursor, size: nat)
    requires c.WellFormed()
    ensures Step(c, ArraySizeRequest(size)) == c.(rowArraySize := size)
  {
  }

  /**
   Three rows: a block of two is fetched, then with the array size set back to one the third row.
   Deleting row number 1 then removes the first row, not the one just fetched.
   */
  lemma DeleteRemovesAnotherRow()
    ensures var start := Opened(THREE_ROWS, 1, 2, THREE_TABLE);
            && SelectedFrom(THREE_ROWS, 1, THREE_TABLE) && start.WellFormed()
            && var c := Run(start, [ScrollRequest(Next), ArraySizeRequest(1)]);
               && Outcome(c, ScrollRequest(Next)) == Rowset([2], false)
               && var next := Step(c, ScrollRequest(Next));
                  next.WellFormed() && next.SetPos(1, DeleteRow, Reply(false, "")).0.table == Delete(THREE_TABLE, "a")
  {
    hide Step, Outcome, Run, SelectedFrom, Delete, Cursor.WellFormed, Cursor.SetPos;
    var start := Opened(THREE_ROWS, 1, 2, THREE_TABLE);
    ThreeSelected();
    FirstBlockOfThree(start);
    RunOfTwo(start, ScrollRequest(Next), ArraySizeRequest(1));
    ArraySizeStep(Step(start, ScrollRequest(Next)), 1);
    ThirdOfThree();
    FirstOfThreeDeleted();
  }

  lemma RunOfTwo(c: Cursor, first: Request, second: Request)
    requires c.WellFormed()
    ensures Step(c, first).WellFormed() && Run(c, [first, second]) == Step(Step(c, first), second)
  {
    hide Step;
    StepWellFormed(c, first);
    var requests := [first, second];
    assert requests[1..] == [second] && requests[1..][1..] == [];
    StepWellFormed(Step(c, first), second);
    assert Run(Step(c, first), [second]) == Run(Step(Step(c, first), second), []);
  }

  // ---- Whether a delivered row is current ----

  // The row is live, and the values delivered for it are those that the server holds.
  ghost predicate Current(c: Cursor, row: nat)
    requires c.WellFormed()
  {
    && row < |c.keyset| && !c.Deleted(row) && c.RowCtid(row).Some?
    && c.RowCtid(row).value in c.table.rows && c.table.rows[c.RowCtid(row).value] == c.PublicRow(row)
  }

  // The row a fetch lands on when it is not a block fetch.
  function Landing(c: Cursor, request: Request): int {
    if request.ScrollRequest? then c.ScrollTarget(request.orientation).0 else c.position + 1
  }

  ghost predicate NoneDeleted(keyset: seq<KeysetRow>, lo: int, hi: int) {
    forall row: nat :: lo <= row < hi && row < |keyset| ==> !keyset[row].deleted
  }

  /**
   With a cursor that agrees with the server, a fetch delivers only live rows, each with the
   server's values, if and only if it is a block fetch or lands on rows none of which is deleted:
   only block fetches skip deleted rows.
   */
  lemma DeliveredRowsAreCurrent(c: Cursor, request: Request)
    requires c.Agrees() && Fetches(request) && Outcome(c, request).Rowset?
    ensures (forall row :: row in Outcome(c, request).rows ==> Current(c, row)) <==>
            c.BlockFetchActive()
            || NoneDeleted(c.keyset, Landing(c, request),
                           Landing(c, request) + if c.rowArraySize > 1 then c.rowArraySize else 1)
  {
    hide LiveFrom, LiveBelow, Cursor.RowCtid, Cursor.PublicRow, NoneDeleted;
    var rows := Outcome(c, request).rows;
    if c.BlockFetchActive() {
      BlockFetchFrame(c, if request.ScrollRequest? then request.orientation else Next);
    } else {
      LandedInterval(c, request);
    }
    forall row | row in rows ensures row < |c.keyset| && (Current(c, row) <==> !c.Deleted(row)) {
      assert c.RowAgrees(row);
    }
  }

  // Without a block fetch the rows delivered are consecutive.
  lemma LandedInterval(c: Cursor, request: Request)
    requires c.WellFormed() && Fetches(request) && Outcome(c, request).Rowset? && !c.BlockFetchActive()
    ensures var rows := Outcome(c, request).rows;
            && (forall row :: row in rows ==> row < |c.keyset|)
            && ((forall row :: row in rows ==> !c.keyset[row].deleted) <==>
                  NoneDeleted(c.keyset, Landing(c, request),
                              Landing(c, request) + if c.rowArraySize > 1 then c.rowArraySize else 1))
  {
    var first := Landing(c, request);
    var size := if c.rowArraySize > 1 then c.rowArraySize else 1;
    var end := if first + size < |c.base| then first + size else |c.base|;
    assert Outcome(c, request).rows == Interval(first, end);
    IntervalMembers(first, end);
  }

  lemma IntervalMembers(lo: nat, hi: nat)
    requires lo <= hi
    ensures forall row: nat :: row in Interval(lo, hi) <==> lo <= row < hi
  {
    forall row: nat | lo <= row < hi ensures row in Interval(lo, hi) {
      assert Interval(lo, hi)[row - lo] == row;
    }
  }

  const ONE_ROW: seq<Row> := [[Null, Text("a")]]
  const ONE_TABLE := Table(map["a" := [Null]], {"a"})

  lemma OneSelected()
    ensures SelectedFrom(ONE_ROW, 1, ONE_TABLE) && Opened(ONE_ROW, 1, 1, ONE_TABLE).WellFormed()
  {
  }

  lemma OneFetched(c: Cursor)
    requires c.WellFormed() && |c.base| == 1 && c.rowArraySize == 1 && !c.forwardOnly
    ensures Step(c, ScrollRequest(First)) == c.(position := 0)
    ensures Outcome(c, ScrollRequest(First)) == Rowset([0], false)
  {
    hide Rectangular;
    assert Interval(0, 1) == [0];
  }

  lemma OneDeleted(c: Cursor)
    requires c == Opened(ONE_ROW, 1, 1, ONE_TABLE).(position := 0)
    ensures c.WellFormed()
    ensures Step(c, SetPosRequest(1, DeleteRow, Reply(false, ""))) == c.(table := Delete(c.table, "a")).WithDeleted(0)
  {
    OneSelected();
    hide SelectedFrom, Delete;
    assert c.RowCtid(0) == Some("a");
  }

  /** A row fetched, deleted and fetched again is delivered although the server has it no more. */
  lemma DeletedRowIsDelivered()
    ensures var requests := [ScrollRequest(First), SetPosRequest(1, DeleteRow, Reply(false, ""))];
            && SelectedFrom(ONE_ROW, 1, ONE_TABLE)
            && var c := Run(Opened(ONE_ROW, 1, 1, ONE_TABLE), requests);
               c.table.rows == map[] && Outcome(c, ScrollRequest(First)) == Rowset([0], false)
  {
    hide Step, Outcome, Run, SelectedFrom, Rectangular;
    var start, delete := Opened(ONE_ROW, 1, 1, ONE_TABLE), SetPosRequest(1, DeleteRow, Reply(false, ""));
    OneSelected();
    RunOfTwo(start, ScrollRequest(First), delete);
    OneFetched(start);
    OneDeleted(start.(position := 0));
    OneFetched(Run(start, [ScrollRequest(First), delete]));
    assert Delete(ONE_TABLE, "a").rows == map[];
  }

  // ---- Scrolling over a plain result ----

  // Scrolling, positioned operations and changed settings keep the cursor between the two ends.
  lemma {:induction false} ScrollStaysInRange(c: Cursor, requests: seq<Request>)
    requires c.WellFormed() && c.position <= |c.base| && FetchRequest !in requests
    ensures -1 <= Run(c, requests).position <= |c.base|
    decreases |requests|
  {
    if requests != [] {
      StepWellFormed(c, requests[0]);
      StepStaysInRange(c, requests[0]);
      ScrollStaysInRange(Step(c, requests[0]), requests[1..]);
    }
  }

  lemma StepStaysInRange(c: Cursor, request: Request)
    requires c.WellFormed() && c.position <= |c.base| && request != FetchRequest
    ensures Step(c, request).position <= |Step(c, request).base| == |c.base|
  {
    match request
    case ScrollRequest(orientation) =>
      ScrollInRange(c, orientation);
      FetchFrame(c, orientation);
    case SetPosRequest(rowNumber, operation, reply) => SetPosInRange(c, rowNumber, operation, reply);
    case _ =>
  }

  lemma SetPosInRange(c: Cursor, rowNumber: nat, operation: Operation, reply: Reply)
    requires c.WellFormed() && c.position <= |c.base|
    ensures c.SetPos(rowNumber, operation, reply).0.position <= |c.base|
    ensures c.SetPos(rowNumber, operation, reply).0.base == c.base
  {
    hide Assign, Assignments;
  }

  lemma ScrollInRange(c: Cursor, orientation: Orientation)
    requires c.WellFormed() && c.position <= |c.base|
    ensures c.ExtendedFetch(orientation).0.position <= |c.base|
  {
    hide Cursor.BlockFetch;
    BlockFetchFrame(c, orientation);
  }

  // SQLFetch counts on behind the end, so scrolling back from there needs as many steps.
  lemma FetchLeavesRange(c: Cursor)
    requires c.WellFormed() && !c.BlockFetchActive()
    ensures c.FetchNextRow().0.position <= |c.base| <==> c.position < |c.base|
    ensures c.position >= |c.base| ==> !c.FetchNextRow().0.ExtendedFetch(Relative(-1)).1.Rowset?
  {
  }

  // The rows from `first` on, as many as the array takes and the result has, and the cursor on the
  // last of them.
  ghost predicate LandedOn(c: Cursor, first: nat, clamped: bool, after: Cursor, result: FetchResult) {
    var size := if c.rowArraySize > 1 then c.rowArraySize else 1;
    && result.Rowset? && result.clamped == clamped
    && 0 < |result.rows| <= size && first + |result.rows| <= |c.base|
    && (|result.rows| < size ==> first + |result.rows| == |c.base|)
    && (forall k :: 0 <= k < |result.rows| ==> result.rows[k] == first + k)
    && after == c.(position := first + |result.rows| - 1)
  }

  /**
   ABSOLUTE counts rows from 1, or back from the end, and runs off the front only to the first row;
   0 is before the first row. Without a row the cursor parks at the end that was passed.
   */
  lemma AbsoluteCounts(c: Cursor, n: int)
    requires c.WellFormed() && !c.BlockFetchActive() && !c.forwardOnly
    ensures var (after, result) := c.ExtendedFetch(Absolute(n));
            && (1 <= n <= |c.base| ==> LandedOn(c, n - 1, false, after, result))
            && (-|c.base| <= n <= -1 ==> LandedOn(c, |c.base| + n, false, after, result))
            && (n < -|c.base| && c.base != [] ==> LandedOn(c, 0, true, after, result))
            && (n == 0 ==> (after, result) == (c.(position := -1), NoData))
            && (n > |c.base| || (n < 0 && c.base == []) ==> (after, result) == (c.(position := |c.base|), NoData))
  {
    hide Rectangular;
    LandingLands(c, c.ScrollTarget(Absolute(n)).0, c.ScrollTarget(Absolute(n)).1);
  }

  lemma LandingLands(c: Cursor, target: int, clamped: bool)
    requires c.WellFormed()
    ensures 0 <= target < |c.base| ==>
              LandedOn(c, target, clamped, c.LandOn(target, clamped).0, c.LandOn(target, clamped).1)
  {
    hide Rectangular;
  }

  /**
   RELATIVE moves by its offset from where the cursor is, or parks at the end that it passes; NEXT and
   PRIOR are RELATIVE by one, but for a PRIOR from farther behind the end than SQLFetchScroll goes.
   */
  lemma RelativeMoves(c: Cursor, n: int)
    requires c.WellFormed() && !c.BlockFetchActive() && !c.forwardOnly
    ensures c.position + n >= 0 ==> c.ExtendedFetch(Relative(n)) == c.ExtendedFetch(Absolute(c.position + n + 1))
    ensures c.position + n < 0 ==> c.ExtendedFetch(Relative(n)) == (c.(position := -1), NoData)
    ensures c.position + n >= |c.base| ==> c.ExtendedFetch(Relative(n)) == (c.(position := |c.base|), NoData)
    ensures c.ExtendedFetch(Next) == c.ExtendedFetch(Relative(1))
    ensures c.position <= |c.base| ==> c.ExtendedFetch(Prior) == c.ExtendedFetch(Relative(-1))
    ensures c.position > |c.base| ==> c.ExtendedFetch(Prior) == c.ExtendedFetch(Last)
  {
    hide Rectangular, Interval;
  }

  /** SQLFetch is NEXT up to the row behind the last one, and counts on from there without a row. */
  lemma FetchIsNext(c: Cursor)
    requires c.WellFormed()
    ensures c.BlockFetchActive() || c.position < |c.base| ==> c.FetchNextRow() == c.ExtendedFetch(Next)
    ensures !c.BlockFetchActive() && c.position >= |c.base| ==>
              c.FetchNextRow() == (c.(position := c.position + 1), NoData)
  {
    hide Rectangular, Cursor.RowsetAt, Cursor.BlockFetch;
  }

  /** Which scrolls fail, and how; the cursor stays where it is. */
  lemma ScrollErrors(c: Cursor, orientation: Orientation)
    requires c.WellFormed()
    ensures var (after, result) := c.ExtendedFetch(orientation);
            var blockOrientation := orientation in [Next, Prior, First, Last];
            && (result.FetchError? ==> after == c)
            && (result == FetchError("HY106") <==>
                  || (c.forwardOnly && orientation != Next)
                  || (c.BlockFetchActive() && !blockOrientation)
                  || (!c.BlockFetchActive() && orientation.Bookmark? && !c.useBookmarks))
            && (result == FetchError("HY090") <==>
                  && !c.forwardOnly && !c.BlockFetchActive()
                  && orientation.Bookmark? && c.useBookmarks && orientation.stored.None?)
            && (result.FetchError? ==> result.sqlstate in ["HY106", "HY090"])
  {
    hide Rectangular, Interval, LiveFrom, LiveBelow, Blocks.FirstOf, Blocks.LastOf;
    BlockFetchFrame(c, orientation);
  }

  lemma RelativeMovesAdd(c: Cursor, a: int, b: int)
    requires c.WellFormed() && !c.BlockFetchActive() && c.rowArraySize <= 1 && !c.forwardOnly
    requires 0 <= c.position + a < |c.base|
    ensures c.ExtendedFetch(Relative(a)).0.ExtendedFetch(Relative(b)) == c.ExtendedFetch(Relative(a + b))
  {
  }

  /**
   The orientations name each other's rows: from before the first row NEXT is FIRST, from behind
   the last PRIOR is LAST, a negative ABSOLUTE counts back from the end and is clamped exactly
   when it would run off the front, a bookmark is an ABSOLUTE row, and PRIOR undoes NEXT.
   */
  lemma OrientationsAgree(c: Cursor, n: int, bookmark: int, offset: int)
    requires c.WellFormed() && !c.BlockFetchActive() && !c.forwardOnly
    ensures c.position == -1 ==> c.ExtendedFetch(Next) == c.ExtendedFetch(First)
    ensures c.position >= |c.base| ==> c.ExtendedFetch(Prior) == c.ExtendedFetch(Last)
    ensures 1 <= n <= |c.base| ==> c.ExtendedFetch(Absolute(n)) == c.ExtendedFetch(Absolute(n - 1 - |c.base|))
    ensures c.base != [] ==> c.ExtendedFetch(First) == c.ExtendedFetch(Absolute(1))
    ensures c.base != [] ==> c.ExtendedFetch(Last) == c.ExtendedFetch(Absolute(-1))
    ensures n < -|c.base| ==>
              && c.ScrollTarget(Absolute(n)) == (0, true)
              && c.ExtendedFetch(Absolute(n)).0 == c.ExtendedFetch(First).0
    ensures c.ScrollTarget(Absolute(n)).1 ==> n < -|c.base|
    ensures c.useBookmarks && 0 <= bookmark && 0 <= bookmark + offset ==>
              c.ExtendedFetch(Bookmark(Some(bookmark), offset)) == c.ExtendedFetch(Absolute(bookmark + offset))
    ensures c.useBookmarks && bookmark < 0 && 0 <= bookmark + offset ==>
              c.ExtendedFetch(Bookmark(Some(bookmark), offset)) == c.ExtendedFetch(Absolute(bookmark + offset + 1))
    ensures c.rowArraySize <= 1 && 0 <= c.position < |c.base| ==>
              c.ExtendedFetch(Next).0.ExtendedFetch(Prior).0 == c
  {
    hide Cursor.LandOn, Cursor.ExtendedFetch, Rectangular;
    ClampedLanding(c, 0);
    PriorUndoesNext(c);
    forall orientation <- [Next, Prior, First, Last, Absolute(1), Absolute(-1)] {
      Lands(c, orientation);
    }
    Lands(c, Absolute(n));
    Lands(c, Absolute(n - 1 - |c.base|));
    if c.useBookmarks {
      Lands(c, Bookmark(Some(bookmark), offset));
      Lands(c, Absolute(bookmark + offset));
      Lands(c, Absolute(bookmark + offset + 1));
    }
  }

  lemma Lands(c: Cursor, orientation: Orientation)
    requires c.WellFormed() && !c.BlockFetchActive() && !c.forwardOnly
    requires orientation.Bookmark? ==> c.useBookmarks && orientation.stored.Some?
    ensures var (target, clamped) := c.ScrollTarget(orientation);
            c.ExtendedFetch(orientation) == c.LandOn(target, clamped)
  {
    hide Cursor.LandOn, Cursor.ScrollTarget, Rectangular;
  }

  lemma ClampedLanding(c: Cursor, target: int)
    ensures c.LandOn(target, true).0 == c.LandOn(target, false).0
  {
  }

  lemma PriorUndoesNext(c: Cursor)
    requires c.WellFormed() && !c.BlockFetchActive() && !c.forwardOnly
    ensures c.rowArraySize <= 1 && 0 <= c.position < |c.base| ==>
              c.ExtendedFetch(Next).0.ExtendedFetch(Prior).0 == c
  {
  }

  function PlainSweep(c: Cursor): seq<seq<nat>>
    requires c.WellFormed() && !c.BlockFetchActive()
    decreases |c.base| - c.position
  {
    var (next, result) := c.FetchNextRow();
    if result.Rowset? then [result.rows] + PlainSweep(next) else []
  }

  // Forward rowsets partition the rows that lie ahead, and then there is no more data.
  lemma {:induction false} PlainSweepIsExact(c: Cursor)
    requires c.WellFormed() && !c.BlockFetchActive() && c.rowArraySize > 0 && c.position < |c.base|
    ensures PlainSweep(c) == Blocks.FromFront(Interval(c.position + 1, |c.base|), c.rowArraySize)
    decreases |c.base| - c.position
  {
    hide Interval, Rectangular, Blocks.FromFront;
    var (next, result) := c.FetchNextRow();
    IntervalCut(c.position + 1, |c.base|, c.rowArraySize);
    if result.Rowset? {
      PlainSweepIsExact(next);
    }
  }

  // The first rows of an interval, and what is left behind them.
  lemma IntervalCut(lo: nat, hi: nat, size: nat)
    requires lo <= hi && size > 0
    ensures var end := if lo + size < hi then lo + size else hi;
            && Blocks.FromFront(Interval(lo, hi), size) ==
               if lo == hi then [] else [Interval(lo, end)] + Blocks.FromFront(Interval(end, hi), size)
  {
    var end := if lo + size < hi then lo + size else hi;
    assert Interval(lo, hi)[..end - lo] == Interval(lo, end);
    assert Interval(lo, hi)[end - lo..] == Interval(end, hi);
  }
}
