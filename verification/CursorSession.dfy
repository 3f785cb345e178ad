/**
 What a rollback on the server leaves of the overlay of a cursor: the driver restores the deleted
 flags of the rows for a savepoint of the application, and nothing for a whole transaction.
 */
module CursorRollback {
  import opened CtidTable
  import opened CursorModel

  // The request changes a row that is still there.
  predicate Applies(c: Cursor, request: Request) {
    && request.SetPosRequest? && c.updatable && 0 <= c.TargetRow(request.rowNumber) < |c.keyset|
    && !c.Deleted(c.TargetRow(request.rowNumber)) && !request.reply.refused
    && (request.operation.DeleteRow? ||
        (request.operation.UpdateRow? && Assignments(c.bindings, c.publicColumns) != []))
  }

  predicate AppliesUpdate(c: Cursor, request: Request) {
    Applies(c, request) && request.operation.UpdateRow?
  }

  predicate SomeApplies(c: Cursor, requests: seq<Request>, deletes: bool)
    requires c.WellFormed()
    decreases |requests|
  {
    requests != [] &&
    (StepWellFormed(c, requests[0]);
     (if deletes then Applies(c, requests[0]) else AppliesUpdate(c, requests[0]))
     || SomeApplies(CursorModel.Step(c, requests[0]), requests[1..], deletes))
  }

  // ---- The deleted flags that a savepoint of the application remembers ----

  function DeletedFlags(c: Cursor): (flags: seq<bool>)
    ensures |flags| == |c.keyset|
  {
    seq(|c.keyset|, k requires 0 <= k < |c.keyset| => c.keyset[k].deleted)
  }

  function RestoreFlags(c: Cursor, flags: seq<bool>): Cursor {
    c.(keyset := seq(|c.keyset|, k requires 0 <= k < |c.keyset| =>
                   c.keyset[k].(deleted := if k < |flags| then flags[k] else true)),
       position := -1, rowsetFirst := -1, rowsetSize := 0)
  }

  const MAX_KEYSET_SAVEPOINTS := 8

  datatype KeysetSavepoint = KeysetSavepoint(name: string, deletedFlags: seq<bool>)

  // The slot with the given name, or the number of slots.
  function SlotOf(slots: seq<KeysetSavepoint>, name: string): (slot: nat)
    ensures slot <= |slots| && (slot < |slots| ==> slots[slot].name == name)
    ensures forall k :: 0 <= k < slot ==> slots[k].name != name
  {
    if slots == [] then 0
    else if slots[0].name == name then 0
    else
      var rest := SlotOf(slots[1..], name);
      assert forall k :: 1 <= k < rest + 1 ==> slots[k] == slots[1..][k - 1];
      rest + 1
  }

  // SAVEPOINT: the flags are kept under the name while there is a slot for it.
  function Snapshot(slots: seq<KeysetSavepoint>, name: string, c: Cursor): seq<KeysetSavepoint> {
    var slot, saved := SlotOf(slots, name), KeysetSavepoint(name, DeletedFlags(c));
    if c.keyset == [] then slots
    else if slot < |slots| then slots[slot := saved]
    else if |slots| < MAX_KEYSET_SAVEPOINTS then slots + [saved]
    else slots
  }

  // ROLLBACK TO: without a slot for the name the overlay stays as it is.
  function RollbackTo(slots: seq<KeysetSavepoint>, name: string, c: Cursor): Cursor {
    var slot := SlotOf(slots, name);
    if slot < |slots| then RestoreFlags(c, slots[slot].deletedFlags) else c
  }

  /**
   Restoring flags changes nothing but which rows count as deleted and where the cursor is: every row
   has its remembered flag, a row added since is deleted, and the next fetch starts before the first.
   */
  lemma RestoreIsExact(c: Cursor, flags: seq<bool>)
    requires c.WellFormed()
    ensures var r := RestoreFlags(c, flags);
            && r.WellFormed() && r.position == r.rowsetFirst == -1 && r.rowsetSize == 0
            && |r.keyset| == |c.keyset|
            && c == r.(keyset := c.keyset, position := c.position, rowsetFirst := c.rowsetFirst,
                       rowsetSize := c.rowsetSize)
            && forall k :: 0 <= k < |c.keyset| ==>
                 && r.FullRow(k) == c.FullRow(k) && r.RowCtid(k) == c.RowCtid(k)
                 && (k < |flags| ==> r.Deleted(k) == flags[k]) && (k >= |flags| ==> r.Deleted(k))
  {
  }

  /** A result without rows takes no slot. */
  lemma EmptyTakesNoSlot(slots: seq<KeysetSavepoint>, name: string, c: Cursor)
    requires c.keyset == []
    ensures Snapshot(slots, name, c) == slots
  {
  }

  predicate Remembered(slots: seq<KeysetSavepoint>, name: string) {
    SlotOf(slots, name) < |slots| || |slots| < MAX_KEYSET_SAVEPOINTS
  }

  lemma SlotIsFirst(slots: seq<KeysetSavepoint>, name: string, slot: nat)
    requires slot < |slots| && slots[slot].name == name && forall k :: 0 <= k < slot ==> slots[k].name != name
    ensures SlotOf(slots, name) == slot
  {
  }

  // ---- A request that applies to no row ----

  lemma NotAppliedKeepsRows(c: Cursor, request: Request)
    requires c.Agrees() && !Applies(c, request)
    ensures Step(c, request).keyset == c.keyset && Step(c, request).table == c.table
  {
    match request
    case SetPosRequest(rowNumber, _, _) =>
      var row := c.TargetRow(rowNumber);
      if 0 <= row < |c.keyset| {
        assert c.RowAgrees(row);
        assert c.keyset[row := c.keyset[row].(deleted := c.keyset[row].deleted)] == c.keyset;
      }
    case ScrollRequest(orientation) => FetchFrame(c, orientation);
    case FetchRequest => NextRowFrame(c);
    case _ =>
  }

  lemma StepKeepsColumns(c: Cursor, request: Request)
    requires c.WellFormed()
    ensures Step(c, request).base == c.base && Step(c, request).publicColumns == c.publicColumns
    ensures Step(c, request).updatable == c.updatable && |Step(c, request).keyset| == |c.keyset|
    ensures c.table.used <= Step(c, request).table.used
  {
    hide Rectangular, Cursor.SetPos, Cursor.ExtendedFetch, Cursor.FetchNextRow;
    StepWellFormed(c, request);
    match request
    case ScrollRequest(orientation) => FetchFrame(c, orientation);
    case FetchRequest => NextRowFrame(c);
    case SetPosRequest(rowNumber, operation, reply) => SetPosKeepsColumns(c, rowNumber, operation, reply);
    case _ =>
  }

  lemma SetPosKeepsColumns(c: Cursor, rowNumber: nat, operation: Operation, reply: Reply)
    requires c.WellFormed()
    ensures var c' := c.SetPos(rowNumber, operation, reply).0;
            && c'.base == c.base && c'.publicColumns == c.publicColumns && c'.updatable == c.updatable
            && c.table.used <= c'.table.used
  {
    hide Assign, Assignments, Cursor.RowCtid, Rectangular, Cursor.Fit, Cursor.PublicRow;
  }

  // ---- A row that the rolled back table cannot account for ----

  // The ctid of the row came after the table `t`.
  ghost predicate Moved(c: Cursor, t: Table, row: nat)
    requires c.WellFormed() && row < |c.keyset|
  {
    c.RowCtid(row).Some? && c.RowCtid(row).value !in t.used
  }

  // The row is marked deleted, and the table has it still.
  ghost predicate Missed(c: Cursor, t: Table, row: nat)
    requires c.WellFormed() && row < |c.keyset|
  {
    c.Deleted(row) && c.RowCtid(row).Some? && c.RowCtid(row).value in t.rows
  }

  lemma AppliedStep(c: Cursor, request: Request)
    requires c.Agrees() && FreshReply(c, request) && Applies(c, request)
    ensures var c', row := Step(c, request), c.TargetRow(request.rowNumber);
            && c'.WellFormed() && |c'.keyset| == |c.keyset|
            && if request.operation.UpdateRow? then Moved(c', c.table, row) else Missed(c', c.table, row)
  {
    var row := c.TargetRow(request.rowNumber);
    assert c.RowAgrees(row);
    if request.operation.UpdateRow? {
      UpdatedRow(c, row, request.reply);
    } else {
      RowAfterDelete(c, row, request.reply, row);
    }
  }

  // Whatever happens next, the row stays moved or missed.
  lemma StaleStays(c: Cursor, request: Request, t: Table, row: nat)
    requires c.Agrees() && FreshReply(c, request) && row < |c.keyset| && t.used <= c.table.used
    ensures Step(c, request).WellFormed() && |Step(c, request).keyset| == |c.keyset|
    ensures Moved(c, t, row) ==> Moved(Step(c, request), t, row)
    ensures Missed(c, t, row) ==> Missed(Step(c, request), t, row)
  {
    hide Assign, Assignments;
    StepWellFormed(c, request);
    if !Applies(c, request) {
      NotAppliedKeepsRows(c, request);
      StepKeepsColumns(c, request);
    } else {
      var target := c.TargetRow(request.rowNumber);
      if request.operation.DeleteRow? {
        RowAfterDelete(c, target, request.reply, row);
      } else if target == row {
        UpdatedRow(c, row, request.reply);
      } else {
        RowBesideUpdate(c, target, request.reply, row);
      }
    }
  }

  lemma {:induction false} StaleToTheEnd(c: Cursor, requests: seq<Request>, t: Table, row: nat)
    requires c.Agrees() && FreshReplies(c, requests) && row < |c.keyset| && t.used <= c.table.used
    ensures Run(c, requests).base == c.base && Run(c, requests).publicColumns == c.publicColumns
    ensures Moved(c, t, row) ==> Moved(Run(c, requests), t, row)
    ensures Missed(c, t, row) ==> Missed(Run(c, requests), t, row)
    decreases |requests|
  {
    hide Cursor.RowAgrees, Cursor.DistinctCtids, Step, FreshReply, Moved, Missed;
    if requests != [] {
      StepAgrees(c, requests[0]);
      StaleStays(c, requests[0], t, row);
      StepKeepsColumns(c, requests[0]);
      StaleToTheEnd(Step(c, requests[0]), requests[1..], t, row);
    }
  }

  // ---- ROLLBACK of a whole transaction ----

  lemma StaleDisagrees(c: Cursor, t: Table, row: nat)
    requires c.WellFormed() && row < |c.keyset| && (Moved(c, t, row) || Missed(c, t, row))
    ensures !c.(table := t).Agrees()
  {
    var back := c.(table := t);
    assert back.RowCtid(row) == c.RowCtid(row);
    AgreesAt(back, row);
  }

  lemma AgreesAt(c: Cursor, row: nat)
    requires c.WellFormed() && row < |c.keyset|
    ensures c.Agrees() ==> c.RowAgrees(row)
  {
  }

  lemma {:induction false} SomeRowIsStale(c: Cursor, requests: seq<Request>)
    returns (row: nat)
    requires c.Agrees() && FreshReplies(c, requests) && SomeApplies(c, requests, true)
    ensures row < |Run(c, requests).keyset|
    ensures Moved(Run(c, requests), c.table, row) || Missed(Run(c, requests), c.table, row)
    decreases |requests|
  {
    hide Cursor.RowAgrees, Cursor.DistinctCtids, Step, FreshReply, Moved, Missed, Applies;
    var next := Step(c, requests[0]);
    StepAgrees(c, requests[0]);
    StepKeepsColumns(c, requests[0]);
    if Applies(c, requests[0]) {
      row := AppliedTo(c, requests[0]);
      StaleToTheEnd(next, requests[1..], c.table, row);
    } else {
      NotAppliedKeepsRows(c, requests[0]);
      row := SomeRowIsStale(next, requests[1..]);
    }
  }

  lemma AppliedTo(c: Cursor, request: Request) returns (row: nat)
    requires c.Agrees() && FreshReply(c, request) && Applies(c, request)
    ensures Step(c, request).WellFormed() && |Step(c, request).keyset| == |c.keyset| && row < |c.keyset|
    ensures Moved(Step(c, request), c.table, row) || Missed(Step(c, request), c.table, row)
    ensures request.operation.UpdateRow? ==> Moved(Step(c, request), c.table, row)
  {
    row := c.TargetRow(request.rowNumber);
    AppliedStep(c, request);
  }

  lemma {:induction false} NothingAppliedKeepsRows(c: Cursor, requests: seq<Request>)
    requires c.Agrees() && FreshReplies(c, requests) && !SomeApplies(c, requests, true)
    ensures Run(c, requests).keyset == c.keyset && Run(c, requests).base == c.base
    ensures Run(c, requests).publicColumns == c.publicColumns
    decreases |requests|
  {
    hide Cursor.RowAgrees, Cursor.DistinctCtids, Step, FreshReply, Applies;
    if requests != [] {
      StepAgrees(c, requests[0]);
      NotAppliedKeepsRows(c, requests[0]);
      StepKeepsColumns(c, requests[0]);
      NothingAppliedKeepsRows(Step(c, requests[0]), requests[1..]);
    }
  }

  /**
   When the server goes back to the table from before a run of requests, the overlay of the open
   cursor agrees with it if and only if no request of the run changed a row: SQLEndTran does not
   touch the overlay.
   */
  lemma RollbackLeavesOverlay(c: Cursor, requests: seq<Request>)
    requires c.Agrees() && FreshReplies(c, requests)
    ensures Run(c, requests).(table := c.table).Agrees() <==> !SomeApplies(c, requests, true)
  {
    hide Cursor.RowAgrees, Cursor.DistinctCtids, FreshReplies, SomeApplies, Run;
    if SomeApplies(c, requests, true) {
      var row := SomeRowIsStale(c, requests);
      StaleDisagrees(Run(c, requests), c.table, row);
    } else {
      NothingAppliedKeepsRows(c, requests);
      FrameAgrees(c, Run(c, requests).(table := c.table));
    }
  }

  // ---- ROLLBACK TO a savepoint of the application ----

  ghost predicate SameOverrides(c: Cursor, c': Cursor) {
    && |c'.keyset| == |c.keyset| && c'.base == c.base && c'.publicColumns == c.publicColumns
    && forall k :: 0 <= k < |c.keyset| ==> c'.keyset[k].overrideValues == c.keyset[k].overrideValues
  }

  lemma StepKeepsOverrides(c: Cursor, request: Request)
    requires c.Agrees() && !AppliesUpdate(c, request)
    ensures SameOverrides(c, Step(c, request))
  {
    hide Assign, Assignments;
    StepKeepsColumns(c, request);
    if !Applies(c, request) {
      NotAppliedKeepsRows(c, request);
    }
  }

  lemma {:induction false} NoUpdateKeepsOverrides(c: Cursor, requests: seq<Request>)
    requires c.Agrees() && FreshReplies(c, requests) && !SomeApplies(c, requests, false)
    ensures SameOverrides(c, Run(c, requests))
    decreases |requests|
  {
    hide Cursor.RowAgrees, Cursor.DistinctCtids, Step, FreshReply, AppliesUpdate;
    if requests != [] {
      StepAgrees(c, requests[0]);
      StepKeepsOverrides(c, requests[0]);
      NoUpdateKeepsOverrides(Step(c, requests[0]), requests[1..]);
    }
  }

  lemma {:induction false} SomeRowHasMoved(c: Cursor, requests: seq<Request>, t: Table)
    returns (row: nat)
    requires c.Agrees() && FreshReplies(c, requests) && SomeApplies(c, requests, false) && t.used <= c.table.used
    ensures row < |Run(c, requests).keyset| && Moved(Run(c, requests), t, row)
    decreases |requests|
  {
    hide Cursor.RowAgrees, Cursor.DistinctCtids, Step, FreshReply, Applies;
    var next := Step(c, requests[0]);
    StepAgrees(c, requests[0]);
    StepKeepsColumns(c, requests[0]);
    if AppliesUpdate(c, requests[0]) {
      row := AppliedTo(c, requests[0]);
      StaleToTheEnd(next, requests[1..], t, row);
    } else {
      row := SomeRowHasMoved(next, requests[1..], t);
    }
  }

  /**
   When the application rolls back to its savepoint, the driver restores the deleted flags of the
   rows but not their overlaid values. The overlay agrees with the table of the savepoint if and
   only if no positioned UPDATE was applied since; then the rows are those of the savepoint.
   */
  lemma SavepointRestoresDeletes(c: Cursor, requests: seq<Request>)
    requires c.Agrees() && FreshReplies(c, requests)
    ensures var back := RestoreFlags(Run(c, requests), DeletedFlags(c)).(table := c.table);
            && (back.Agrees() <==> !SomeApplies(c, requests, false))
            && (back.Agrees() ==> back.keyset == c.keyset)
  {
    hide Cursor.RowAgrees, Cursor.DistinctCtids, FreshReplies, SomeApplies, Run;
    var last := Run(c, requests);
    var back := RestoreFlags(last, DeletedFlags(c));
    if SomeApplies(c, requests, false) {
      var row := SomeRowHasMoved(c, requests, c.table);
      assert back.RowCtid(row) == last.RowCtid(row);
      StaleDisagrees(back, c.table, row);
    } else {
      NoUpdateKeepsOverrides(c, requests);
      assert back.keyset == c.keyset;
      FrameAgrees(c, back.(table := c.table));
    }
  }

  lemma SnapshotRestored(slots: seq<KeysetSavepoint>, name: string, c: Cursor, c': Cursor)
    requires c.keyset != []
    ensures RollbackTo(Snapshot(slots, name, c), name, c') ==
            if Remembered(slots, name) then RestoreFlags(c', DeletedFlags(c)) else c'
  {
    hide RestoreFlags, DeletedFlags;
    var slot := SlotOf(slots, name);
    if Remembered(slots, name) {
      SlotIsFirst(Snapshot(slots, name, c), name, slot);
    }
  }

  /**
   From SAVEPOINT to ROLLBACK TO the same name, the overlay ends in agreement with the table if and
   only if no UPDATE was applied to a row, and no DELETE either when all slots were taken by other names.
   */
  lemma ApplicationSavepoint(c: Cursor, slots: seq<KeysetSavepoint>, name: string, requests: seq<Request>)
    requires c.Agrees() && FreshReplies(c, requests) && c.keyset != []
    ensures var back := RollbackTo(Snapshot(slots, name, c), name, Run(c, requests)).(table := c.table);
            back.Agrees() <==> !SomeApplies(c, requests, !Remembered(slots, name))
  {
    hide Cursor.RowAgrees, Cursor.DistinctCtids, FreshReplies, SomeApplies, Run;
    hide RestoreFlags, DeletedFlags, Remembered;
    SnapshotRestored(slots, name, c, Run(c, requests));
    if Remembered(slots, name) {
      SavepointRestoresDeletes(c, requests);
    } else {
      RollbackLeavesOverlay(c, requests);
    }
  }
}

/**
 Positioned changes and transactions together. SQLSetPos sends its UPDATE and DELETE straight to
 the server: no transaction is begun for it, no savepoint guards it, and its failure does not mark
 the connection.
 */
module CursorSessions {
  import opened CtidTable
  import opened CursorRollback
  import opened DirectCommands
  import opened Options
  import C = CursorModel
  import P = PgServer
  import T = TransactionModel

  // ---- A connection with an open updatable cursor ----

  datatype CursorSession = CursorSession(session: T.Session<Table>, cursor: C.Cursor)

  // One request on the cursor; `partial` is what a failing command leaves of the table in its block.
  datatype Event = Event(request: C.Request, partial: Table)

  // The table that the connection works on.
  function Seen(server: P.Server<Table>): Table {
    match server.block
    case NoBlock => server.committed
    case Open(working, _, _) => working
  }

  // The request reaches the server: its row has a ctid, and an UPDATE has columns to set.
  predicate Sends(c: C.Cursor, request: C.Request)
    requires c.WellFormed()
  {
    && request.SetPosRequest? && c.updatable && 0 <= c.TargetRow(request.rowNumber) < |c.keyset|
    && c.RowCtid(c.TargetRow(request.rowNumber)).Some?
    && (request.operation.DeleteRow? ||
        (request.operation.UpdateRow? && C.Assignments(c.bindings, c.publicColumns) != []))
  }

  function Positioned(c: C.Cursor, event: Event): P.Statement<Table>
    requires c.WellFormed() && Sends(c, event.request)
  {
    var ctid, reply := c.RowCtid(c.TargetRow(event.request.rowNumber)).value, event.request.reply;
    var assignments := C.Assignments(c.bindings, c.publicColumns);
    (t: Table) =>
      if reply.refused then P.Errored(event.partial)
      else if event.request.operation.DeleteRow? then P.Completed(Delete(t, ctid))
      else P.Completed(Update(t, ctid, assignments, reply.newCtid))
  }

  // The request as the server answers it: in an aborted block every command is refused.
  function Answered(cs: CursorSession, event: Event): C.Request
    requires cs.cursor.WellFormed()
  {
    if !Sends(cs.cursor, event.request) then event.request
    else
      var ok := P.Execute(cs.session.server, P.Run(Positioned(cs.cursor, event))).1;
      event.request.(reply := event.request.reply.(refused := !ok))
  }

  function Step(cs: CursorSession, event: Event): CursorSession
    requires cs.cursor.WellFormed()
  {
    var server' := if !Sends(cs.cursor, event.request) then cs.session.server
                   else P.Execute(cs.session.server, P.Run(Positioned(cs.cursor, event))).0;
    CursorSession(cs.session.(server := server'), C.Step(cs.cursor, Answered(cs, event)))
  }

  /**
   In a block that an error has ended the server refuses every positioned change, which then changes
   neither side; anywhere else it answers as the reply says.
   */
  lemma EndedBlockRefuses(cs: CursorSession, event: Event)
    requires cs.cursor.WellFormed() && Sends(cs.cursor, event.request)
    ensures Aborted(cs.session.server) ==>
              && Step(cs, event) == cs
              && var request := Answered(cs, event);
                 cs.cursor.SetPos(request.rowNumber, request.operation, request.reply) == (cs.cursor, C.Failed("HY000"))
    ensures !Aborted(cs.session.server) ==> Answered(cs, event) == event.request
  {
    hide Assign, C.Assignments;
  }

  // The cursor reads what the connection works on.
  ghost predicate InStep(cs: CursorSession) {
    cs.cursor.Agrees() && (!Aborted(cs.session.server) ==> cs.cursor.table == Seen(cs.session.server))
  }

  // The change is refused in a transaction that was unharmed until then.
  predicate Breaks(cs: CursorSession, event: Event)
    requires cs.cursor.WellFormed()
  {
    && Sends(cs.cursor, event.request) && event.request.reply.refused
    && cs.session.server.block.Open? && !Aborted(cs.session.server)
  }

  // The statement does to the table of the server what the cursor shows.
  lemma SameTable(cs: CursorSession, event: Event)
    requires cs.cursor.Agrees() && Sends(cs.cursor, event.request)
    ensures var c', request := C.Step(cs.cursor, Answered(cs, event)), Answered(cs, event);
            c'.table == if request.reply.refused then cs.cursor.table
                        else Positioned(cs.cursor, event)(cs.cursor.table).data
  {
    hide Assign, C.Assignments;
  }

  lemma AppliedIsSent(c: C.Cursor, request: C.Request)
    requires c.Agrees()
    ensures Applies(c, request) ==> Sends(c, request)
  {
    if Applies(c, request) {
      assert c.RowAgrees(c.TargetRow(request.rowNumber));
    }
  }

  lemma NothingSent(c: C.Cursor, request: C.Request)
    requires c.Agrees() && !Sends(c, request)
    ensures C.Step(c, request).table == c.table
  {
    AppliedIsSent(c, request);
    NotAppliedKeepsRows(c, request);
  }

  /**
   One request on the cursor keeps driver and server matched unless it is a change that the server
   refuses in an unharmed transaction: the driver then takes a block for active that is lost. The
   overlay agrees in every case, and nothing else of the connection changes.
   */
  lemma PositionedKeepsMatch(cs: CursorSession, event: Event)
    requires cs.session.Matched() && InStep(cs) && C.FreshReply(cs.cursor, event.request)
    ensures var cs' := Step(cs, event);
            && (cs'.session.Matched() <==> !Breaks(cs, event)) && (Breaks(cs, event) ==> Lost(cs'.session))
            && InStep(cs') && cs'.session == cs.session.(server := cs'.session.server)
  {
    hide C.Cursor.RowAgrees, C.Cursor.DistinctCtids, C.Step, Update, Delete;
    C.StepAgrees(cs.cursor, Answered(cs, event));
    if Sends(cs.cursor, event.request) {
      SameTable(cs, event);
    } else {
      NothingSent(cs.cursor, event.request);
    }
  }

  /**
   Outside a transaction an accepted change is published at once, whatever autocommit says, and
   SQLEndTran has nothing to take back.
   */
  lemma IdleChangeIsPublished(cs: CursorSession, event: Event)
    requires cs.session.Matched() && cs.session.state.Idle? && InStep(cs) && Sends(cs.cursor, event.request)
    ensures var cs' := Step(cs, event);
            && cs'.session.server.committed == cs'.cursor.table
            && cs'.cursor.table == (if event.request.reply.refused then cs.session.server.committed
                                    else Positioned(cs.cursor, event)(cs.session.server.committed).data)
            && cs'.session.EndTransaction(P.Rollback) == (cs'.session, T.Success)
  {
    hide C.Cursor.RowAgrees, C.Cursor.DistinctCtids, C.Step, Update, Delete;
    SameTable(cs, event);
  }

  // ---- Runs of requests on the cursor ----

  function Run(cs: CursorSession, events: seq<Event>): (last: CursorSession)
    requires cs.cursor.WellFormed()
    ensures last.cursor.WellFormed()
    decreases |events|
  {
    if events == [] then cs
    else
      C.StepWellFormed(cs.cursor, Answered(cs, events[0]));
      Run(Step(cs, events[0]), events[1..])
  }

  // The requests of a run as the server answered them.
  function AllAnswered(cs: CursorSession, events: seq<Event>): seq<C.Request>
    requires cs.cursor.WellFormed()
    decreases |events|
  {
    if events == [] then []
    else
      C.StepWellFormed(cs.cursor, Answered(cs, events[0]));
      [Answered(cs, events[0])] + AllAnswered(Step(cs, events[0]), events[1..])
  }

  predicate SomeBreaks(cs: CursorSession, events: seq<Event>)
    requires cs.cursor.WellFormed()
    decreases |events|
  {
    events != [] &&
    (C.StepWellFormed(cs.cursor, Answered(cs, events[0]));
     Breaks(cs, events[0]) || SomeBreaks(Step(cs, events[0]), events[1..]))
  }

  lemma {:induction false} RunOfCursor(cs: CursorSession, events: seq<Event>)
    requires cs.cursor.WellFormed()
    ensures Run(cs, events).cursor == C.Run(cs.cursor, AllAnswered(cs, events))
    decreases |events|
  {
    hide C.Step, Answered;
    if events != [] {
      C.StepWellFormed(cs.cursor, Answered(cs, events[0]));
      assert AllAnswered(cs, events)[1..] == AllAnswered(Step(cs, events[0]), events[1..]);
      RunOfCursor(Step(cs, events[0]), events[1..]);
    }
  }

  lemma LostStays(cs: CursorSession, event: Event)
    requires Lost(cs.session) && cs.cursor.WellFormed()
    ensures Lost(Step(cs, event).session) && Step(cs, event).session == cs.session
  {
    hide C.Step;
  }

  lemma {:induction false} LostToTheEnd(cs: CursorSession, events: seq<Event>)
    requires Lost(cs.session) && cs.cursor.WellFormed()
    ensures Run(cs, events).session == cs.session
    decreases |events|
  {
    hide C.Step, Lost;
    if events != [] {
      C.StepWellFormed(cs.cursor, Answered(cs, events[0]));
      LostStays(cs, events[0]);
      LostToTheEnd(Step(cs, events[0]), events[1..]);
    }
  }

  lemma FreshOfAnswered(cs: CursorSession, events: seq<Event>)
    requires cs.cursor.Agrees() && events != [] && C.FreshReplies(cs.cursor, AllAnswered(cs, events))
    ensures C.FreshReply(cs.cursor, Answered(cs, events[0])) && C.FreshReply(cs.cursor, events[0].request)
    ensures Step(cs, events[0]).cursor.Agrees()
    ensures C.FreshReplies(Step(cs, events[0]).cursor, AllAnswered(Step(cs, events[0]), events[1..]))
  {
    hide C.Cursor.RowAgrees, C.Cursor.DistinctCtids, C.Step;
    C.StepWellFormed(cs.cursor, Answered(cs, events[0]));
    assert AllAnswered(cs, events)[1..] == AllAnswered(Step(cs, events[0]), events[1..]);
    C.StepAgrees(cs.cursor, Answered(cs, events[0]));
  }

  /**
   Over a run of requests on the cursor, driver and server stay matched if and only if no change
   is refused in an unharmed transaction. The overlay agrees all along.
   */
  lemma {:induction false} CursorRunKeepsMatch(cs: CursorSession, events: seq<Event>)
    requires cs.session.Matched() && InStep(cs) && C.FreshReplies(cs.cursor, AllAnswered(cs, events))
    ensures Run(cs, events).session.Matched() <==> !SomeBreaks(cs, events)
    ensures SomeBreaks(cs, events) ==> Lost(Run(cs, events).session)
    ensures Run(cs, events).cursor.Agrees()
    decreases |events|
  {
    hide C.Cursor.RowAgrees, C.Cursor.DistinctCtids, C.FreshReply, C.FreshReplies, Breaks, Step, AllAnswered;
    if events != [] {
      FreshOfAnswered(cs, events);
      PositionedKeepsMatch(cs, events[0]);
      var next := Step(cs, events[0]);
      if Breaks(cs, events[0]) {
        LostToTheEnd(next, events[1..]);
        RunOfCursor(next, events[1..]);
        C.RunAgrees(next.cursor, AllAnswered(next, events[1..]));
      } else {
        CursorRunKeepsMatch(next, events[1..]);
      }
    }
  }

  lemma {:induction false} BlockStaysOpen(cs: CursorSession, events: seq<Event>)
    requires cs.cursor.WellFormed() && cs.session.server.block.Open?
    ensures var last := Run(cs, events).session;
            && last == cs.session.(server := last.server) && last.server.block.Open?
            && last.server.committed == cs.session.server.committed
    decreases |events|
  {
    hide C.Step, Positioned, Sends;
    if events != [] {
      C.StepWellFormed(cs.cursor, Answered(cs, events[0]));
      BlockStaysOpen(Step(cs, events[0]), events[1..]);
    }
  }

  /**
   ROLLBACK of a transaction that changed rows only through the cursor takes the table back, but
   the open cursor still shows it if and only if none of the changes was applied.
   */
  lemma RollbackLeavesCursorStale(cs: CursorSession, events: seq<Event>)
    requires cs.session.Matched() && cs.session.state.Active? && InStep(cs)
    requires Seen(cs.session.server) == cs.session.server.committed
    requires C.FreshReplies(cs.cursor, AllAnswered(cs, events))
    ensures var last := Run(cs, events);
            var ended := last.session.EndTransaction(P.Rollback).0;
            && ended.server == P.Server(cs.session.server.committed, P.NoBlock) && ended.state.Idle?
            && (last.cursor.(table := Seen(ended.server)).Agrees() <==>
                !SomeApplies(cs.cursor, AllAnswered(cs, events), true))
  {
    hide C.Cursor.RowAgrees, C.Cursor.DistinctCtids, C.FreshReplies, AllAnswered, Run, SomeApplies, C.Run;
    RunOfCursor(cs, events);
    BlockStaysOpen(cs, events);
    RollbackLeavesOverlay(cs.cursor, AllAnswered(cs, events));
  }

  // ---- Statements, SQLEndTran and positioned requests interleaved ----

  datatype MixedEvent = OnCursor(event: Event) | OnConnection(request: T.Request<Table>)

  // The cursor goes on reading what the connection works on, while that can be read.
  function MixedCursorStep(cs: CursorSession, e: MixedEvent): (next: CursorSession)
    requires cs.cursor.WellFormed()
    ensures next.cursor.WellFormed()
  {
    match e
    case OnCursor(event) =>
      C.StepWellFormed(cs.cursor, Answered(cs, event));
      Step(cs, event)
    case OnConnection(request) =>
      var session := cs.session.Step(request).0;
      CursorSession(session, if Aborted(session.server) then cs.cursor else cs.cursor.(table := Seen(session.server)))
  }

  // The rows of the cursor are in the one table exactly as in the other.
  ghost predicate KeepsRows(c: C.Cursor, before: Table, after: Table)
    requires c.WellFormed()
  {
    && before.used <= after.used && after.rows.Keys <= after.used
    && forall row :: 0 <= row < |c.keyset| && c.RowCtid(row).Some? ==>
         var ctid := c.RowCtid(row).value;
         (ctid in after.rows <==> ctid in before.rows)
         && (ctid in after.rows ==> after.rows[ctid] == before.rows[ctid])
  }

  // The server never uses a ctid again.
  ghost predicate Lawful(cs: CursorSession, request: T.Request<Table>) {
    request.Exec? ==>
      var before := Seen(cs.session.server);
      request.statement(before).Completed? ==>
        var after := request.statement(before).data;
        before.used <= after.used && after.rows.Keys <= after.used
  }

  // The statement takes effect on a row that the cursor shows.
  ghost predicate Disturbs(cs: CursorSession, request: T.Request<Table>)
    requires cs.cursor.WellFormed()
  {
    var next := cs.session.Step(request).0;
    && request.Exec? && !Drops(cs, OnConnection(request)) && !Aborted(next.server)
    && !KeepsRows(cs.cursor, Seen(cs.session.server), Seen(next.server))
  }

  ghost predicate Admissible(cs: CursorSession, events: seq<MixedEvent>)
    requires cs.cursor.WellFormed()
    decreases |events|
  {
    events == [] ||
    ((match events[0]
      case OnCursor(event) => C.FreshReply(cs.cursor, Answered(cs, event))
      case OnConnection(request) => Lawful(cs, request))
     && Admissible(MixedCursorStep(cs, events[0]), events[1..]))
  }

  // The request publishes the work of the open transaction.
  predicate Publishes(s: T.Session<Table>, request: T.Request<Table>) {
    && s.state.Active? && !Aborted(s.server)
    && match request
       case Exec(_, _) => false
       case EndTran(commit, refused) => commit && !refused
       case Autocommit(on, refused) => on && !refused
  }

  // The transaction ends and its work is lost: ROLLBACK, a refused COMMIT, the COMMIT of a failed
  // transaction, or a statement that fails where failures roll the transaction back.
  predicate Drops(cs: CursorSession, e: MixedEvent) {
    && e.OnConnection? && cs.session.server.block.Open?
    && cs.session.Step(e.request).0.server.block.NoBlock? && !Publishes(cs.session, e.request)
  }

  // Whether the transaction then open holds a positioned change.
  predicate ChangedBehind(cs: CursorSession, changed: bool, e: MixedEvent)
    requires cs.cursor.WellFormed()
  {
    && MixedCursorStep(cs, e).session.server.block.Open?
    && (changed || (e.OnCursor? && cs.session.server.block.Open? && Applies(cs.cursor, Answered(cs, e.event))))
  }

  predicate SomeChangeDropped(cs: CursorSession, changed: bool, events: seq<MixedEvent>)
    requires cs.cursor.WellFormed()
    decreases |events|
  {
    events != [] &&
    ((changed && Drops(cs, events[0]))
     || SomeChangeDropped(MixedCursorStep(cs, events[0]), ChangedBehind(cs, changed, events[0]), events[1..]))
  }

  ghost predicate SomeRowDisturbed(cs: CursorSession, events: seq<MixedEvent>)
    requires cs.cursor.WellFormed()
    decreases |events|
  {
    events != [] &&
    ((events[0].OnConnection? && Disturbs(cs, events[0].request))
     || SomeRowDisturbed(MixedCursorStep(cs, events[0]), events[1..]))
  }

  ghost predicate AlwaysInStep(cs: CursorSession, events: seq<MixedEvent>)
    requires cs.cursor.WellFormed()
    decreases |events|
  {
    InStep(cs) && (events == [] || AlwaysInStep(MixedCursorStep(cs, events[0]), events[1..]))
  }

  // Some row is stale against the table that a rollback would bring back.
  ghost predicate StaleAgainst(c: C.Cursor, t: Table)
    requires c.WellFormed()
  {
    exists row: nat :: row < |c.keyset| && (Moved(c, t, row) || Missed(c, t, row))
  }

  // What is kept along a run: with a transaction open, the cursor agrees with the published table
  // unless the transaction holds a positioned change.
  ghost predicate Tracked(cs: CursorSession, changed: bool) {
    && Sound(cs.session) && InStep(cs)
    && match cs.session.server.block
       case NoBlock => !changed
       case Open(_, _, _) =>
         var published := cs.session.server.committed;
         && published.used <= cs.cursor.table.used
         && if changed then StaleAgainst(cs.cursor, published) else cs.cursor.(table := published).Agrees()
  }

  lemma KeptRowsAgree(c: C.Cursor, after: Table)
    requires c.Agrees() && KeepsRows(c, c.table, after)
    ensures c.(table := after).Agrees()
  {
    var c' := c.(table := after);
    forall row | 0 <= row < |c.keyset|
      ensures c'.RowAgrees(row) && c'.RowCtid(row) == c.RowCtid(row) && c'.Deleted(row) == c.Deleted(row)
    {
      assert c.RowAgrees(row);
    }
  }

  lemma DisturbedDisagrees(c: C.Cursor, after: Table)
    requires c.Agrees() && c.table.used <= after.used && after.rows.Keys <= after.used
    requires !KeepsRows(c, c.table, after)
    ensures !c.(table := after).Agrees()
  {
    var c' := c.(table := after);
    var row :| 0 <= row < |c.keyset| && c.RowCtid(row).Some?
               && !((c.RowCtid(row).value in after.rows <==> c.RowCtid(row).value in c.table.rows)
                    && (c.RowCtid(row).value in after.rows ==>
                          after.rows[c.RowCtid(row).value] == c.table.rows[c.RowCtid(row).value]));
    assert c.RowAgrees(row) && c'.RowCtid(row) == c.RowCtid(row) && c'.Deleted(row) == c.Deleted(row);
    assert !c'.RowAgrees(row);
  }

  lemma RetableAgrees(c: C.Cursor, t: Table, c': C.Cursor)
    requires c.(table := t).Agrees() && c'.WellFormed()
    requires c'.base == c.base && c'.keyset == c.keyset && c'.publicColumns == c.publicColumns
    ensures c'.(table := t).Agrees()
  {
    C.FrameAgrees(c.(table := t), c'.(table := t));
  }

  lemma RetableStale(c: C.Cursor, t: Table, after: Table)
    requires c.WellFormed() && StaleAgainst(c, t)
    ensures StaleAgainst(c.(table := after), t)
  {
    var row: nat :| row < |c.keyset| && (Moved(c, t, row) || Missed(c, t, row));
    assert c.(table := after).RowCtid(row) == c.RowCtid(row);
    assert Moved(c.(table := after), t, row) || Missed(c.(table := after), t, row);
  }

  lemma StaleAgainstDisagrees(c: C.Cursor, t: Table)
    requires c.WellFormed() && StaleAgainst(c, t)
    ensures !c.(table := t).Agrees()
  {
    var row: nat :| row < |c.keyset| && (Moved(c, t, row) || Missed(c, t, row));
    StaleDisagrees(c, t, row);
  }

  // An applied change makes its row stale against every earlier table that the cursor agreed with.
  lemma AppliedIsStale(c: C.Cursor, request: C.Request, t: Table)
    requires c.Agrees() && C.FreshReply(c, request) && Applies(c, request)
    requires t.used <= c.table.used && c.(table := t).Agrees()
    ensures C.Step(c, request).WellFormed() && StaleAgainst(C.Step(c, request), t)
  {
    var row := c.TargetRow(request.rowNumber);
    AppliedStep(c, request);
    assert c.(table := t).RowAgrees(row) && c.(table := t).RowCtid(row) == c.RowCtid(row);
    SameCtid(c, request, row);
    assert Moved(C.Step(c, request), t, row) || Missed(C.Step(c, request), t, row);
  }

  lemma SameCtid(c: C.Cursor, request: C.Request, row: nat)
    requires c.Agrees() && C.FreshReply(c, request) && Applies(c, request) && row == c.TargetRow(request.rowNumber)
    ensures C.Step(c, request).WellFormed() && row < |C.Step(c, request).keyset|
    ensures request.operation.DeleteRow? ==> C.Step(c, request).RowCtid(row) == c.RowCtid(row)
    ensures request.operation.UpdateRow? ==> C.Step(c, request).RowCtid(row) == Some(request.reply.newCtid)
  {
    if request.operation.DeleteRow? {
      C.RowAfterDelete(c, row, request.reply, row);
    } else {
      C.UpdatedRow(c, row, request.reply);
    }
  }

  lemma StaleStaysAgainst(c: C.Cursor, request: C.Request, t: Table)
    requires c.Agrees() && C.FreshReply(c, request) && t.used <= c.table.used && StaleAgainst(c, t)
    ensures C.Step(c, request).WellFormed() && StaleAgainst(C.Step(c, request), t)
  {
    var row: nat :| row < |c.keyset| && (Moved(c, t, row) || Missed(c, t, row));
    StaleStays(c, request, t, row);
    assert Moved(C.Step(c, request), t, row) || Missed(C.Step(c, request), t, row);
  }

  lemma CursorEventTracked(cs: CursorSession, changed: bool, event: Event)
    requires Tracked(cs, changed) && C.FreshReply(cs.cursor, Answered(cs, event))
    ensures Tracked(MixedCursorStep(cs, OnCursor(event)), ChangedBehind(cs, changed, OnCursor(event)))
  {
    hide C.Cursor.RowAgrees, C.Cursor.DistinctCtids, C.Step, Sound, StaleAgainst, Positioned;
    var c, request, published := cs.cursor, Answered(cs, event), cs.session.server.committed;
    C.StepAgrees(c, request);
    StepKeepsColumns(c, request);
    CursorEventInStep(cs, event);
    AppliedIsSent(c, event.request);
    if cs.session.server.block.Open? {
      if changed {
        StaleStaysAgainst(c, request, published);
      } else if Applies(c, request) {
        AppliedIsStale(c, request, published);
      } else {
        NotAppliedKeepsRows(c, request);
        RetableAgrees(c, published, C.Step(c, request));
      }
    }
  }

  // The session stays sound, and outside a transaction nothing but the change itself is published.
  lemma CursorEventInStep(cs: CursorSession, event: Event)
    requires Sound(cs.session) && InStep(cs) && C.FreshReply(cs.cursor, Answered(cs, event))
    ensures var cs' := Step(cs, event);
            && Sound(cs'.session) && InStep(cs')
            && (cs'.session.server.block.Open? <==> cs.session.server.block.Open?)
            && (cs.session.server.block.Open? ==> cs'.session.server.committed == cs.session.server.committed)
  {
    hide C.Cursor.RowAgrees, C.Cursor.DistinctCtids, C.Step, Update, Delete, Lost, T.Session.Matched;
    C.StepAgrees(cs.cursor, Answered(cs, event));
    if Sends(cs.cursor, event.request) {
      SameTable(cs, event);
      DirectRefines(cs.session, Positioned(cs.cursor, event));
    } else {
      NothingSent(cs.cursor, event.request);
    }
  }

  // What a request of the connection makes of the table it works on.
  lemma RequestEffect(s: T.Session<Table>, request: T.Request<Table>)
    requires Sound(s)
    ensures var next := s.Step(request).0;
            && Sound(next)
            && (if next.server.block.Open? then
                  && next.server.committed == s.server.committed
                  && (!Aborted(next.server) ==> !Aborted(s.server) && Continues(s, request, Seen(next.server)))
                else if s.server.block.NoBlock? then Continues(s, request, next.server.committed)
                else
                  next.server.committed == if Publishes(s, request) then Seen(s.server) else s.server.committed)
  {
    MixedStepRefines(s, Protocol(request));
    hide Sound, T.Session.Step;
    var l, next := s.Observed(), s.Step(request).0;
    assert MixedLedgerStep(l, Protocol(request), s.Mode()).0 == next.Observed();
    SoundState(s);
  }

  // The data is what it was, or what the statement made of it.
  predicate Continues(s: T.Session<Table>, request: T.Request<Table>, data: Table) {
    data == Seen(s.server)
    || (request.Exec? && request.statement(Seen(s.server)).Completed?
        && data == request.statement(Seen(s.server)).data)
  }

  lemma SoundState(s: T.Session<Table>)
    requires Sound(s)
    ensures s.server.block.Open? ==> !s.autocommit && (!Aborted(s.server) ==> s.state.Active?)
  {
  }

  lemma RequestTracked(cs: CursorSession, changed: bool, request: T.Request<Table>)
    requires Tracked(cs, changed) && Lawful(cs, request)
    ensures var e := OnConnection(request);
            if Disturbs(cs, request) || (changed && Drops(cs, e)) then !InStep(MixedCursorStep(cs, e))
            else Tracked(MixedCursorStep(cs, e), ChangedBehind(cs, changed, e))
  {
    hide C.Cursor.RowAgrees, C.Cursor.DistinctCtids, Sound, StaleAgainst, KeepsRows, T.Session.Step, Publishes;
    RequestEffect(cs.session, request);
    var c, before, published := cs.cursor, Seen(cs.session.server), cs.session.server.committed;
    var next := cs.session.Step(request).0;
    if next.server.block.NoBlock? && cs.session.server.block.Open? {
      if !Publishes(cs.session, request) && changed {
        StaleAgainstDisagrees(c, published);
      } else if Publishes(cs.session, request) {
        PublishedUnharmed(cs.session, request);
      }
    } else if !Aborted(next.server) {
      var after := Seen(next.server);
      KeepsItself(c);
      if Disturbs(cs, request) {
        DisturbedDisagrees(c, after);
      } else {
        if after != before {
          KeptRowsAgree(c, after);
          KeepsUsed(c, before, after);
        }
        if changed {
          RetableStale(c, published, after);
        }
      }
    }
  }

  lemma PublishedUnharmed(s: T.Session<Table>, request: T.Request<Table>)
    requires Publishes(s, request)
    ensures !Aborted(s.server) && !request.Exec?
  {
  }

  lemma KeepsItself(c: C.Cursor)
    requires c.Agrees()
    ensures KeepsRows(c, c.table, c.table)
  {
  }

  lemma KeepsUsed(c: C.Cursor, before: Table, after: Table)
    requires c.WellFormed() && KeepsRows(c, before, after)
    ensures before.used <= after.used
  {
  }

  /**
   Over any run of statements, SQLEndTran calls, autocommit switches and requests on the cursor, the
   overlay agrees all along with the table the connection works on if and only if no statement takes
   effect on a row of the cursor and no transaction is dropped after a positioned change was applied
   in it.
   */
  lemma {:induction false} MixedRunInStep(cs: CursorSession, changed: bool, events: seq<MixedEvent>)
    requires Tracked(cs, changed) && Admissible(cs, events)
    ensures AlwaysInStep(cs, events) <==> !SomeRowDisturbed(cs, events) && !SomeChangeDropped(cs, changed, events)
    decreases |events|
  {
    hide InStep, Tracked, MixedCursorStep, Drops, ChangedBehind, C.FreshReply, Lawful, Disturbs;
    TrackedInStep(cs, changed);
    if events != [] {
      match events[0] {
        case OnCursor(event) =>
          CursorEventTracked(cs, changed, event);
          NotDropped(cs, event);
        case OnConnection(request) => RequestTracked(cs, changed, request);
      }
      var next := MixedCursorStep(cs, events[0]);
      if (events[0].OnConnection? && Disturbs(cs, events[0].request)) || (changed && Drops(cs, events[0])) {
        NeverInStep(next, events[1..]);
      } else {
        MixedRunInStep(next, ChangedBehind(cs, changed, events[0]), events[1..]);
      }
    }
  }

  lemma NeverInStep(cs: CursorSession, events: seq<MixedEvent>)
    requires cs.cursor.WellFormed() && !InStep(cs)
    ensures !AlwaysInStep(cs, events)
  {
  }

  lemma NotDropped(cs: CursorSession, event: Event)
    ensures !Drops(cs, OnCursor(event))
  {
  }

  lemma TrackedInStep(cs: CursorSession, changed: bool)
    requires Tracked(cs, changed)
    ensures InStep(cs) && cs.cursor.WellFormed()
  {
  }

  // ---- Examples ----

  function MixedCursorRun(cs: CursorSession, events: seq<MixedEvent>): (last: CursorSession)
    requires cs.cursor.WellFormed()
    ensures last.cursor.WellFormed()
    decreases |events|
  {
    if events == [] then cs else MixedCursorRun(MixedCursorStep(cs, events[0]), events[1..])
  }

  // A statement that adds a row "d".
  function AddRow(t: Table): P.StatementResult<Table> {
    P.Completed(Table(t.rows["d" := [Null]], t.used + {"d"}))
  }

  const MORE_TABLE := Table(C.THREE_TABLE.rows["d" := [Null]], C.THREE_TABLE.used + {"d"})

  // A connection that has just switched autocommit off, with an open cursor over three rows.
  function ThreeOpened(): CursorSession {
    CursorSession(T.Session(false, T.Idle, false, T.ROLLBACK_ON_ERROR_UNSPECIFIED, P.Server(C.THREE_TABLE, P.NoBlock)),
                  C.Opened(C.THREE_ROWS, 1, 1, C.THREE_TABLE))
  }

  // The same with the row added in a transaction, and the cursor on its first row.
  function OnFirst(): CursorSession {
    var saved := P.Savepoint(T.STATEMENT_SAVEPOINT, C.THREE_TABLE);
    CursorSession(T.Session(false, T.Active, true, T.ROLLBACK_ON_ERROR_UNSPECIFIED,
                            P.Server(C.THREE_TABLE, P.Open(MORE_TABLE, [saved], false))),
                  C.Opened(C.THREE_ROWS, 1, 1, MORE_TABLE).(position := 0))
  }

  const FIRST_FETCHED := [OnConnection(T.Exec(AddRow, T.NoRefusal)),
                          OnCursor(Event(C.ScrollRequest(C.First), C.THREE_TABLE))]

  lemma ThreeInStep()
    ensures ThreeOpened().session.Matched() && InStep(ThreeOpened())
  {
    var c := ThreeOpened().cursor;
    forall row | 0 <= row < 3 ensures c.RowAgrees(row) {
    }
  }

  lemma FirstFetched()
    ensures ThreeOpened().cursor.WellFormed()
    ensures MixedCursorRun(ThreeOpened(), FIRST_FETCHED) == OnFirst()
  {
    ThreeInStep();
    var events := FIRST_FETCHED;
    assert events[1..] == [events[1]] && events[1..][1..] == [];
    var begun := MixedCursorStep(ThreeOpened(), events[0]);
    assert begun == OnFirst().(cursor := OnFirst().cursor.(position := -1));
    FirstOfThree(begun, events[1].event);
    assert MixedCursorRun(begun, [events[1]]) == MixedCursorRun(MixedCursorStep(begun, events[1]), []);
  }

  lemma FirstOfThree(cs: CursorSession, event: Event)
    requires cs.cursor == C.Opened(C.THREE_ROWS, 1, 1, MORE_TABLE) && event.request == C.ScrollRequest(C.First)
    ensures cs.cursor.WellFormed() && MixedCursorStep(cs, OnCursor(event)) == cs.(cursor := cs.cursor.(position := 0))
  {
  }

  /**
   With autocommit off a statement adds a row, and then the server refuses a positioned DELETE: the
   transaction is lost without a mark, and COMMIT reports success although the row is not published.
   */
  lemma RefusedDeleteLosesRow()
    ensures ThreeOpened().session.Matched() && ThreeOpened().cursor.WellFormed()
    ensures var cs := MixedCursorRun(ThreeOpened(), FIRST_FETCHED);
            var event := Event(C.SetPosRequest(1, C.DeleteRow, REFUSED), C.THREE_TABLE);
            var lost := Step(cs, event).session;
            && Breaks(cs, event) && Lost(lost) && !lost.Matched()
            && var (ended, result) := lost.Step(T.EndTran(true, false));
               result == T.Success && ended.server.committed == C.THREE_TABLE && "d" !in ended.server.committed.rows
  {
    hide MixedCursorRun;
    ThreeInStep();
    FirstFetched();
    var event := Event(C.SetPosRequest(1, C.DeleteRow, REFUSED), C.THREE_TABLE);
    FirstIsSent(event);
    LostIsNotMatched(Step(OnFirst(), event).session);
  }

  const REFUSED := Reply(true, "")
  const ACCEPTED := Reply(false, "")

  lemma FirstIsSent(event: Event)
    requires event.request.SetPosRequest? && event.request.rowNumber == 1 && event.request.operation.DeleteRow?
    ensures OnFirst().cursor.WellFormed() && Sends(OnFirst().cursor, event.request)
    ensures event.request.reply.refused ==> Breaks(OnFirst(), event) && Lost(Step(OnFirst(), event).session)
  {
  }

  // The first row is deleted through the cursor, and the transaction rolled back.
  const FIRST_DELETED := Event(C.SetPosRequest(1, C.DeleteRow, ACCEPTED), C.THREE_TABLE)

  function RolledBack(): CursorSession {
    CursorSession(ThreeOpened().session,
                  OnFirst().cursor.WithDeleted(0).(table := C.THREE_TABLE))
  }

  // The row is gone from the transaction's table and marked in the cursor.
  function FirstGone(): CursorSession {
    var (session, less) := (OnFirst().session, Delete(MORE_TABLE, "a"));
    var block := session.server.block.(working := less);
    CursorSession(session.(server := session.server.(block := block)),
                  OnFirst().cursor.WithDeleted(0).(table := less))
  }

  lemma FirstIsDeleted()
    ensures OnFirst().cursor.WellFormed() && Step(OnFirst(), FIRST_DELETED) == FirstGone()
  {
    FirstIsSent(FIRST_DELETED);
    hide Delete;
    assert OnFirst().cursor.RowCtid(0) == Some("a");
  }

  lemma DeleteIsRolledBack()
    ensures OnFirst().cursor.WellFormed() && FirstGone().cursor.WellFormed()
    ensures var last := [OnCursor(FIRST_DELETED), OnConnection(T.EndTran(false, false))];
            MixedCursorRun(OnFirst(), last) == RolledBack()
  {
    FirstIsDeleted();
    hide Delete, Step;
    var last := [OnCursor(FIRST_DELETED), OnConnection(T.EndTran(false, false))];
    assert last[1..] == [last[1]] && last[1..][1..] == [];
    assert MixedCursorRun(FirstGone(), [last[1]]) == MixedCursorRun(MixedCursorStep(FirstGone(), last[1]), []);
  }

  /**
   With autocommit off a row is fetched and deleted through the cursor, and the transaction rolled
   back: the row is back in the table, and the open cursor goes on treating it as deleted.
   */
  lemma RolledBackDeleteStaysDeleted()
    ensures ThreeOpened().session.Matched() && ThreeOpened().cursor.WellFormed()
    ensures var cs := MixedCursorRun(ThreeOpened(), FIRST_FETCHED);
            && cs.cursor.WellFormed()
            && var back := MixedCursorRun(cs, [OnCursor(FIRST_DELETED), OnConnection(T.EndTran(false, false))]);
               && back.session.Matched() && back.session.server.committed == C.THREE_TABLE
               && |back.cursor.keyset| == 3 && back.cursor.Deleted(0)
               && back.cursor.table == C.THREE_TABLE && !back.cursor.Agrees()
  {
    ThreeInStep();
    FirstFetched();
    DeleteIsRolledBack();
    hide MixedCursorRun, C.SelectedFrom;
    var back := RolledBack().cursor;
    assert back.WellFormed() && back.RowCtid(0) == Some("a") && back.Deleted(0);
    AgreesAt(back, 0);
  }
}
