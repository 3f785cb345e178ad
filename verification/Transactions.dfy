/**
 The transaction block and savepoint stack that a PostgreSQL session keeps for one client.
 A failing command may leave the data of its block in any state: only ROLLBACK and
 ROLLBACK TO bring it back.
 */
module PgServer {

  datatype StatementResult<D> = Completed(data: D) | Errored(partial: D)

  type Statement<!D> = D -> StatementResult<D>

  datatype Savepoint<D> = Savepoint(name: string, data: D)

  datatype Block<D> = NoBlock | Open(working: D, savepoints: seq<Savepoint<D>>, aborted: bool)

  datatype Server<D> = Server(committed: D, block: Block<D>)

  // `refused` marks a command that the server rejects although it is legal where it stands
  // (a deferred constraint at COMMIT, a resource limit at BEGIN or SAVEPOINT).
  datatype Command<!D> =
    | Begin(refused: bool)
    | Commit(refused: bool)
    | Rollback
    | SetSavepoint(name: string, refused: bool)
    | Release(name: string, refused: bool)
    | RollbackTo(name: string)
    | Run(statement: Statement<D>)

  // Index of the innermost savepoint with the given name, or -1.
  function Innermost<D>(savepoints: seq<Savepoint<D>>, name: string): (k: int)
    ensures -1 <= k < |savepoints|
  {
    if savepoints == [] then -1
    else if savepoints[|savepoints| - 1].name == name then |savepoints| - 1
    else Innermost(savepoints[..|savepoints| - 1], name)
  }

  function Abort<D>(s: Server<D>): Server<D>
    requires s.block.Open?
  {
    s.(block := s.block.(aborted := true))
  }

  // The new server state, and whether the command was reported as successful.
  function Execute<D>(s: Server<D>, command: Command<D>): (Server<D>, bool) {
    match command
    case Begin(refused) =>
      if s.block.NoBlock? then if refused then (s, false) else (s.(block := Open(s.committed, [], false)), true)
      else if s.block.aborted then (s, false)
      else if refused then (Abort(s), false)
      else (s, true)
    case Commit(refused) =>
      if s.block.NoBlock? then (s, true)
      // COMMIT of an aborted block is carried out as ROLLBACK and reported as successful
      else if s.block.aborted then (s.(block := NoBlock), true)
      else if refused then (s.(block := NoBlock), false)
      else (Server(s.block.working, NoBlock), true)
    case Rollback =>
      (s.(block := NoBlock), true)
    case SetSavepoint(name, refused) =>
      if s.block.NoBlock? || s.block.aborted then (s, false)
      else if refused then (Abort(s), false)
      else (s.(block := s.block.(savepoints := s.block.savepoints + [Savepoint(name, s.block.working)])), true)
    case Release(name, refused) =>
      if s.block.NoBlock? || s.block.aborted then (s, false)
      else
        var k := Innermost(s.block.savepoints, name);
        if refused || k < 0 then (Abort(s), false)
        else (s.(block := s.block.(savepoints := s.block.savepoints[..k])), true)
    case RollbackTo(name) =>
      if s.block.NoBlock? then (s, false)
      else
        var k := Innermost(s.block.savepoints, name);
        if k < 0 then (Abort(s), false)
        else (s.(block := Open(s.block.savepoints[k].data, s.block.savepoints[..k + 1], false)), true)
    case Run(statement) =>
      if s.block.NoBlock? then
        match statement(s.committed)
        case Completed(data) => (s.(committed := data), true)
        case Errored(_) => (s, false)
      else if s.block.aborted then (s, false)
      else
        match statement(s.block.working)
        case Completed(data) => (s.(block := s.block.(working := data)), true)
        case Errored(partial) => (s.(block := s.block.(working := partial, aborted := true)), false)
  }
}

/**
 What the driver remembers about the transaction of a connection, and the operations that keep
 it in step with the server: `transaction_state` and `statement_savepoint_active`.
 */
module TransactionModel {
  import opened PgServer

  datatype TransactionState = Idle | Active | Failed

  datatype SqlReturn = Success | Error

  const ROLLBACK_ON_ERROR_UNSPECIFIED := -1
  const ROLLBACK_ON_ERROR_TRANSACTION := 1
  const ROLLBACK_ON_ERROR_STATEMENT := 2

  const STATEMENT_SAVEPOINT := "_psqlodbc2_stmt_svp_"

  datatype Refusal = NoRefusal | BeginRefused | ReleaseRefused | SavepointRefused

  // The connection of the driver together with the server it talks to.
  datatype Session<D> = Session(
    autocommit: bool,
    state: TransactionState,
    savepointActive: bool,
    rollbackOnError: int,
    server: Server<D>)
  {
    function Mode(): int {
      if rollbackOnError != ROLLBACK_ON_ERROR_UNSPECIFIED then rollbackOnError else ROLLBACK_ON_ERROR_STATEMENT
    }

    function Finished(server': Server<D>): Session<D> {
      this.(state := Idle, savepointActive := false, server := server')
    }

    function BeginTransaction(refused: bool): (Session<D>, SqlReturn) {
      if state == Active then (this, Success)
      else
        var (server', ok) := Execute(server, Begin(refused));
        if ok then (this.(state := Active, savepointActive := false, server := server'), Success)
        else (this.(server := server'), Error)
    }

    function EndTransaction(command: Command<D>): (Session<D>, SqlReturn) {
      if state == Idle then (this, Success)
      else
        var (server', ok) := Execute(server, command);
        (Finished(server'), if ok then Success else Error)
    }

    function EnsureTransaction(refused: bool): (Session<D>, SqlReturn) {
      if autocommit || state != Idle then (this, Success) else BeginTransaction(refused)
    }

    function BeginStatementSavepoint(refusal: Refusal): Session<D> {
      if state != Active || Mode() != ROLLBACK_ON_ERROR_STATEMENT then this
      else
        var (released, releaseOk) :=
          if savepointActive then Execute(server, Release(STATEMENT_SAVEPOINT, refusal.ReleaseRefused?))
          else (server, true);
        var mark := SetSavepoint(STATEMENT_SAVEPOINT, refusal.SavepointRefused?);
        var (marked, markOk) := if releaseOk then Execute(released, mark) else (released, false);
        if markOk then this.(savepointActive := true, server := marked)
        else
          var (retried, retryOk) := Execute(marked, mark);
          this.(savepointActive := retryOk, server := retried)
    }

    function HandleStatementError(): Session<D> {
      if state != Failed then this
      else if Mode() == ROLLBACK_ON_ERROR_STATEMENT && savepointActive then
        var (server', ok) := Execute(server, RollbackTo(STATEMENT_SAVEPOINT));
        this.(state := if ok then Active else state, server := server')
      else if Mode() == ROLLBACK_ON_ERROR_TRANSACTION then EndTransaction(Rollback).0
      else this
    }

    function ExecuteStatement(statement: Statement<D>, refusal: Refusal): (Session<D>, SqlReturn) {
      var (begun, beginReturn) := EnsureTransaction(refusal.BeginRefused?);
      if beginReturn == Error then (begun, Error)
      else begun.BeginStatementSavepoint(refusal).RunStatement(statement)
    }

    function RunStatement(statement: Statement<D>): (Session<D>, SqlReturn) {
      var (server', ok) := Execute(server, Run(statement));
      if ok then (this.(server := server'), Success)
      else
        var marked := this.(server := server', state := if state == Active then Failed else state);
        (marked.HandleStatementError(), Error)
    }

    function SetAutocommit(on: bool, commitRefused: bool): (Session<D>, SqlReturn) {
      if on && !autocommit && state == Failed then
        (EndTransaction(Rollback).0.(autocommit := on), Success)
      else if on && !autocommit && state == Active then
        var (ended, result) := EndTransaction(Commit(commitRefused));
        if result == Error then (ended, Error) else (ended.(autocommit := on), Success)
      else (this.(autocommit := on), Success)
    }

    function Step(request: Request<D>): (Session<D>, SqlReturn) {
      match request
      case Exec(statement, refusal) => ExecuteStatement(statement, refusal)
      case EndTran(true, refused) => EndTransaction(Commit(refused))
      case EndTran(false, _) => EndTransaction(Rollback)
      case Autocommit(on, refused) => SetAutocommit(on, refused)
    }

    // Driver and server agree on the transaction, and the server holds the savepoint of the
    // driver at most once: exactly when the flag says so, unless the block is lost anyway.
    ghost predicate Matched() {
      && (autocommit ==> state == Idle)
      && (state == Failed ==> Mode() != ROLLBACK_ON_ERROR_TRANSACTION)
      && (savepointActive <==> state == Active && Mode() == ROLLBACK_ON_ERROR_STATEMENT)
      && match server.block
         case NoBlock => state == Idle
         case Open(_, savepoints, aborted) =>
           && state == (if aborted then Failed else Active)
           && |savepoints| <= 1
           && (|savepoints| == 1 ==> savepoints[0].name == STATEMENT_SAVEPOINT)
           && (!aborted ==> (savepointActive <==> |savepoints| == 1))
    }

    // A transaction block is open and unharmed; the savepoint of the previous statement may stand.
    ghost predicate Begun() {
      && !autocommit && state == Active && server.block.Open? && !server.block.aborted
      && (savepointActive ==> Mode() == ROLLBACK_ON_ERROR_STATEMENT)
      && |server.block.savepoints| == (if savepointActive then 1 else 0)
      && (savepointActive ==> server.block.savepoints[0].name == STATEMENT_SAVEPOINT)
    }

    // Ready to run a statement on the data `before`: in statement mode the one savepoint of the
    // driver holds that data. `lost` says that the server has given up the block instead.
    ghost predicate Guarded(before: D, lost: bool) {
      && !autocommit && state == Active && server.block.Open? && server.block.aborted == lost
      && (lost ==> Mode() == ROLLBACK_ON_ERROR_STATEMENT && !savepointActive && |server.block.savepoints| <= 1
                   && (server.block.savepoints != [] ==> server.block.savepoints[0].name == STATEMENT_SAVEPOINT))
      && (!lost ==>
            && server.block.working == before
            && (savepointActive <==> Mode() == ROLLBACK_ON_ERROR_STATEMENT)
            && server.block.savepoints == if savepointActive then [Savepoint(STATEMENT_SAVEPOINT, before)] else [])
    }

    // A statement has just failed in a guarded session.
    ghost predicate Broken() {
      && !autocommit && state == Failed && server.block.Open? && server.block.aborted
      && (savepointActive ==> Mode() == ROLLBACK_ON_ERROR_STATEMENT && |server.block.savepoints| == 1)
      && |server.block.savepoints| <= 1
      && (server.block.savepoints != [] ==> server.block.savepoints[0].name == STATEMENT_SAVEPOINT)
    }

    // What the application can observe: the published data and the work not yet published.
    function Observed(): Ledger<D> {
      Ledger(autocommit, server.committed,
             match server.block
             case NoBlock => Nothing
             case Open(working, _, aborted) => if aborted then Poisoned else Work(working))
    }
  }

  datatype Request<!D> =
    | Exec(statement: Statement<D>, refusal: Refusal)
    | EndTran(commit: bool, refused: bool)
    | Autocommit(on: bool, refused: bool)

  // ---- The contract: statements that either happen or leave no trace ----

  datatype Pending<D> = Nothing | Work(data: D) | Poisoned

  datatype Ledger<D> = Ledger(autocommit: bool, committed: D, pending: Pending<D>) {

    function Exec(statement: Statement<D>, mode: int, refusal: Refusal): (Ledger<D>, SqlReturn) {
      if autocommit then
        match statement(committed)
        case Completed(data) => (this.(committed := data), Success)
        case Errored(_) => (this, Error)
      else if pending.Poisoned? || (pending.Nothing? && refusal.BeginRefused?) then (this, Error)
      else if mode == ROLLBACK_ON_ERROR_STATEMENT && Refused(refusal, pending.Work?) then
        (this.(pending := Poisoned), Error)
      else
        var before := if pending.Work? then pending.data else committed;
        match statement(before)
        case Completed(data) => (this.(pending := Work(data)), Success)
        case Errored(_) =>
          (this.(pending := if mode == ROLLBACK_ON_ERROR_STATEMENT then Work(before)
                            else if mode == ROLLBACK_ON_ERROR_TRANSACTION then Nothing
                            else Poisoned), Error)
    }

    function End(commit: bool, refused: bool): (Ledger<D>, SqlReturn) {
      if commit && pending.Work? then
        if refused then (this.(pending := Nothing), Error) else (Ledger(autocommit, pending.data, Nothing), Success)
      else (this.(pending := Nothing), Success)
    }

    function Step(request: Request<D>, mode: int): (Ledger<D>, SqlReturn) {
      match request
      case Exec(statement, refusal) => Exec(statement, mode, refusal)
      case EndTran(commit, refused) => End(commit, refused)
      case Autocommit(on, refused) =>
        if !on || autocommit then (this.(autocommit := on), Success)
        else
          var (ended, result) := End(true, refused);
          (ended.(autocommit := result == Success), result)
    }
  }

  // A release is only sent when an earlier statement of the transaction left a savepoint.
  predicate Refused(refusal: Refusal, released: bool) {
    refusal.SavepointRefused? || (refusal.ReleaseRefused? && released)
  }

  function Run<D>(s: Session<D>, requests: seq<Request<D>>): (Session<D>, seq<SqlReturn>)
    decreases |requests|
  {
    if requests == [] then (s, [])
    else
      var (next, result) := s.Step(requests[0]);
      var (last, results) := Run(next, requests[1..]);
      (last, [result] + results)
  }

  function RunLedger<D>(l: Ledger<D>, mode: int, requests: seq<Request<D>>): (Ledger<D>, seq<SqlReturn>)
    decreases |requests|
  {
    if requests == [] then (l, [])
    else
      var (next, result) := l.Step(requests[0], mode);
      var (last, results) := RunLedger(next, mode, requests[1..]);
      (last, [result] + results)
  }

  // ---- Refinement, step by step and over whole runs ----

  lemma StepRefines<D>(s: Session<D>, request: Request<D>)
    requires s.Matched()
    ensures s.Step(request).0.Matched()
    ensures s.Step(request).0.Mode() == s.Mode()
    ensures s.Observed().Step(request, s.Mode()) == (s.Step(request).0.Observed(), s.Step(request).1)
  {
    match request
    case Exec(statement, refusal) => ExecRefines(s, statement, refusal);
    case EndTran(_, _) =>
    case Autocommit(_, _) =>
  }

  // Ensuring a transaction opens a block on the published data, keeps an open one, or changes
  // nothing when the server refuses BEGIN.
  lemma EnsureBegins<D>(s: Session<D>, refused: bool)
    requires s.Matched() && !s.autocommit && s.state != Failed
    ensures var (begun, result) := s.EnsureTransaction(refused);
            if s.state == Idle && refused then begun == s && result == Error
            else
              && result == Success && begun.Begun() && begun.Mode() == s.Mode()
              && begun.server.committed == s.server.committed
              && (s.state == Active ==> begun == s)
              && (s.state == Idle ==> !begun.savepointActive && begun.server.block.working == s.server.committed)
  {
  }

  // The savepoint commands leave a guarded session: with a savepoint that holds the data from
  // before the statement, or in a block that the server has given up.
  lemma SavepointGuards<D>(begun: Session<D>, refusal: Refusal)
    requires begun.Begun()
    ensures var guarded := begun.BeginStatementSavepoint(refusal);
            && guarded.Guarded(begun.server.block.working,
                               begun.Mode() == ROLLBACK_ON_ERROR_STATEMENT && Refused(refusal, begun.savepointActive))
            && guarded.Mode() == begun.Mode() && guarded.server.committed == begun.server.committed
  {
    if begun.savepointActive {
      assert Innermost(begun.server.block.savepoints, STATEMENT_SAVEPOINT) == 0;
      assert begun.server.block.savepoints[..0] == [];
    }
  }

  // The state in which a statement of an explicit transaction starts.
  lemma GuardedState<D>(s: Session<D>, refusal: Refusal)
    requires s.Matched() && !s.autocommit && s.state != Failed
    ensures var (begun, result) := s.EnsureTransaction(refusal.BeginRefused?);
            if s.state == Idle && refusal.BeginRefused? then begun == s && result == Error
            else
              var before := if s.state == Active then s.server.block.working else s.server.committed;
              var guarded := begun.BeginStatementSavepoint(refusal);
              && result == Success && guarded.Mode() == s.Mode() && guarded.server.committed == s.server.committed
              && guarded.Guarded(before, s.Mode() == ROLLBACK_ON_ERROR_STATEMENT && Refused(refusal, s.state == Active))
  {
    EnsureBegins(s, refusal.BeginRefused?);
    var (begun, result) := s.EnsureTransaction(refusal.BeginRefused?);
    if result == Success {
      SavepointGuards(begun, refusal);
    }
  }

  lemma ExecRefines<D>(s: Session<D>, statement: Statement<D>, refusal: Refusal)
    requires s.Matched()
    ensures var (next, result) := s.ExecuteStatement(statement, refusal);
            && next.Matched() && next.Mode() == s.Mode()
            && s.Observed().Exec(statement, s.Mode(), refusal) == (next.Observed(), result)
  {
    if s.autocommit || s.state == Failed {
      assert s.EnsureTransaction(refusal.BeginRefused?) == (s, Success) && s.BeginStatementSavepoint(refusal) == s;
    } else {
      GuardedState(s, refusal);
      if s.state == Active || !refusal.BeginRefused? {
        var guarded := s.EnsureTransaction(refusal.BeginRefused?).0.BeginStatementSavepoint(refusal);
        var before := if s.state == Active then s.server.block.working else s.server.committed;
        var lost := s.Mode() == ROLLBACK_ON_ERROR_STATEMENT && Refused(refusal, s.state == Active);
        RunGuarded(guarded, before, lost, statement);
      }
    }
  }

  lemma RunGuarded<D>(guarded: Session<D>, before: D, lost: bool, statement: Statement<D>)
    requires guarded.Guarded(before, lost)
    ensures var (next, result) := guarded.RunStatement(statement);
            && next.Matched() && next.Mode() == guarded.Mode() && !next.autocommit
            && next.server.committed == guarded.server.committed
            && if lost then result == Error && next.Observed().pending == Poisoned
               else
                 match statement(before)
                 case Completed(data) => result == Success && next.Observed().pending == Work(data)
                 case Errored(_) =>
                   && result == Error
                   && next.Observed().pending ==
                      if guarded.Mode() == ROLLBACK_ON_ERROR_STATEMENT then Work(before)
                      else if guarded.Mode() == ROLLBACK_ON_ERROR_TRANSACTION then Nothing
                      else Poisoned
  {
    var (server', ok) := Execute(guarded.server, Command.Run(statement));
    if !ok {
      ErrorHandled(guarded.(server := server', state := Failed));
    }
  }

  // Handling the error of a statement brings back the data of the savepoint, drops the
  // transaction, or leaves it failed.
  lemma ErrorHandled<D>(broken: Session<D>)
    requires broken.Broken()
    ensures var next := broken.HandleStatementError();
            && next.Matched() && next.Mode() == broken.Mode() && !next.autocommit
            && next.server.committed == broken.server.committed
            && next.Observed().pending ==
               if broken.savepointActive then Work(broken.server.block.savepoints[0].data)
               else if broken.Mode() == ROLLBACK_ON_ERROR_TRANSACTION then Nothing
               else Poisoned
  {
    if broken.savepointActive {
      assert Innermost(broken.server.block.savepoints, STATEMENT_SAVEPOINT) == 0;
    }
  }

  lemma {:induction false} RunRefines<D>(s: Session<D>, requests: seq<Request<D>>)
    requires s.Matched()
    ensures Run(s, requests).0.Matched()
    ensures RunLedger(s.Observed(), s.Mode(), requests) == (Run(s, requests).0.Observed(), Run(s, requests).1)
    decreases |requests|
  {
    if requests != [] {
      StepRefines(s, requests[0]);
      RunRefines(s.Step(requests[0]).0, requests[1..]);
    }
  }

  // ---- What COMMIT publishes after any run of statements ----

  datatype Attempt<!D> = Attempt(statement: Statement<D>, refusal: Refusal)

  function Requests<D>(attempts: seq<Attempt<D>>): seq<Request<D>> {
    if attempts == [] then [] else [Exec(attempts[0].statement, attempts[0].refusal)] + Requests(attempts[1..])
  }

  // With no transaction open, the refusal of BEGIN keeps the statement from running at all.
  predicate NotBegun<D>(attempt: Attempt<D>, open: bool) {
    !open && attempt.refusal.BeginRefused?
  }

  // The effect of the successful statements alone, in order.
  function Successes<D>(data: D, open: bool, attempts: seq<Attempt<D>>): D
    decreases |attempts|
  {
    if attempts == [] then data
    else if NotBegun(attempts[0], open) then Successes(data, open, attempts[1..])
    else
      match attempts[0].statement(data)
      case Completed(next) => Successes(next, true, attempts[1..])
      case Errored(_) => Successes(data, true, attempts[1..])
  }

  // The effect of the statements after the last failure: each failure returns to `base`.
  function SinceLastFailure<D>(base: D, data: D, open: bool, attempts: seq<Attempt<D>>): D
    decreases |attempts|
  {
    if attempts == [] then data
    else if NotBegun(attempts[0], open) then SinceLastFailure(base, data, open, attempts[1..])
    else
      match attempts[0].statement(data)
      case Completed(next) => SinceLastFailure(base, next, true, attempts[1..])
      case Errored(_) => SinceLastFailure(base, base, false, attempts[1..])
  }

  predicate AllSucceed<D>(data: D, open: bool, attempts: seq<Attempt<D>>)
    decreases |attempts|
  {
    attempts == [] ||
    if NotBegun(attempts[0], open) then AllSucceed(data, open, attempts[1..])
    else
      match attempts[0].statement(data)
      case Completed(next) => AllSucceed(next, true, attempts[1..])
      case Errored(_) => false
  }

  // A savepoint command refused to some statement; the first one has nothing to release.
  predicate SomeRefused<D>(attempts: seq<Attempt<D>>, open: bool) {
    attempts != [] &&
    if NotBegun(attempts[0], open) then SomeRefused(attempts[1..], open)
    else Refused(attempts[0].refusal, open) || SomeRefused(attempts[1..], true)
  }

  function PublishedBy<D>(base: D, data: D, mode: int, open: bool, attempts: seq<Attempt<D>>): D {
    if mode == ROLLBACK_ON_ERROR_STATEMENT then
      if SomeRefused(attempts, open) then base else Successes(data, open, attempts)
    else if mode == ROLLBACK_ON_ERROR_TRANSACTION then SinceLastFailure(base, data, open, attempts)
    else if AllSucceed(data, open, attempts) then Successes(data, open, attempts) else base
  }

  lemma {:induction false} PoisonedStays<D>(l: Ledger<D>, mode: int, attempts: seq<Attempt<D>>)
    requires !l.autocommit && l.pending.Poisoned?
    ensures RunLedger(l, mode, Requests(attempts)).0 == l
  {
    if attempts != [] {
      assert Requests(attempts)[1..] == Requests(attempts[1..]);
      PoisonedStays(l, mode, attempts[1..]);
    }
  }

  lemma {:induction false} LedgerPublishes<D>(l: Ledger<D>, mode: int, attempts: seq<Attempt<D>>)
    requires !l.autocommit && !l.pending.Poisoned?
    ensures var ran := RunLedger(l, mode, Requests(attempts)).0;
            var data := if l.pending.Work? then l.pending.data else l.committed;
            && !ran.autocommit && ran.committed == l.committed
            && ran.End(true, false).0.committed == PublishedBy(l.committed, data, mode, l.pending.Work?, attempts)
    decreases |attempts|
  {
    if attempts != [] {
      assert Requests(attempts)[1..] == Requests(attempts[1..]);
      var next := l.Step(Requests(attempts)[0], mode).0;
      if next.pending.Poisoned? {
        PoisonedStays(next, mode, attempts[1..]);
      } else {
        LedgerPublishes(next, mode, attempts[1..]);
      }
    }
  }

  /**
   Failed statements leave no trace. For a connection between transactions with autocommit off,
   any run of statements followed by COMMIT publishes: in statement mode the successful
   statements (nothing at all when the server refused a savepoint), in transaction mode the
   statements after the last failure, and otherwise everything or nothing; a statement for which
   the server refused BEGIN does not take part. The data others
   see does not change before the COMMIT, and the COMMIT is always reported as successful.
   */
  lemma CommitPublishes<D>(s: Session<D>, attempts: seq<Attempt<D>>)
    requires s.Matched() && !s.autocommit && s.state == Idle
    ensures var ran := Run(s, Requests(attempts)).0;
            var (ended, result) := ran.Step(EndTran(true, false));
            && ran.Matched() && ran.server.committed == s.server.committed
            && result == Success && ended.Matched() && ended.state == Idle
            && ended.server
               == Server(PublishedBy(s.server.committed, s.server.committed, s.Mode(), false, attempts), NoBlock)
  {
    RunRefines(s, Requests(attempts));
    LedgerPublishes(s.Observed(), s.Mode(), attempts);
    StepRefines(Run(s, Requests(attempts)).0, EndTran(true, false));
  }
}

/** The connection handle: the fields the driver updates in place as server results come back. */
module TransactionDriver {
  import opened PgServer
  import opened TransactionModel

  class Connection<D> {
    var autocommit: bool
    var transactionState: TransactionState
    var statementSavepointActive: bool
    var server: Server<D>
    const rollbackOnError: int

    ghost function View(): Session<D>
      reads this
    {
      Session(autocommit, transactionState, statementSavepointActive, rollbackOnError, server)
    }

    // ODBC connections start in autocommit mode, outside any transaction.
    constructor (data: D, rollbackOnError: int)
      ensures View() == Session(true, Idle, false, rollbackOnError, Server(data, NoBlock)) && View().Matched()
    {
      autocommit, transactionState, statementSavepointActive := true, Idle, false;
      server, this.rollbackOnError := Server(data, NoBlock), rollbackOnError;
    }

    method PqExec(command: Command<D>) returns (ok: bool)
      modifies this`server
      ensures (server, ok) == Execute(old(server), command)
    {
      var (server', accepted) := Execute(server, command);
      server, ok := server', accepted;
    }

    method EffectiveRollbackOnError() returns (mode: int)
      ensures mode == View().Mode()
      ensures rollbackOnError != ROLLBACK_ON_ERROR_UNSPECIFIED ==> mode == rollbackOnError
      ensures rollbackOnError == ROLLBACK_ON_ERROR_UNSPECIFIED ==> mode == ROLLBACK_ON_ERROR_STATEMENT
    {
      if rollbackOnError != ROLLBACK_ON_ERROR_UNSPECIFIED {
        return rollbackOnError;
      }
      return ROLLBACK_ON_ERROR_STATEMENT;
    }

    // In a matched session that has no failed transaction: afterwards a block is open, on the
    // published data when there was none; a refused BEGIN changes nothing.
    method BeginTransaction(refused: bool) returns (result: SqlReturn)
      modifies this
      ensures (View(), result) == old(View()).BeginTransaction(refused)
      ensures old(View()).Matched() && !autocommit && old(transactionState) != Failed ==>
                && (result == Error <==> refused && old(transactionState) == Idle)
                && (result == Error ==> View() == old(View()))
                && (result == Success ==>
                      && View().Begun() && server.committed == old(server).committed
                      && server.block.working ==
                         if old(transactionState) == Active then old(server).block.working else server.committed)
    {
      if transactionState == Active {
        return Success;
      }
      var ok := PqExec(Begin(refused));
      if !ok {
        return Error;
      }
      transactionState, statementSavepointActive := Active, false;
      return Success;
    }

    method Commit(refused: bool) returns (result: SqlReturn)
      modifies this
      ensures (View(), result) == old(View()).EndTransaction(Command.Commit(refused))
      ensures old(View()).Matched() ==>
                View().Matched() && (View().Observed(), result) == old(View()).Observed().End(true, refused)
    {
      ghost var before := View();
      if before.Matched() {
        StepRefines(before, EndTran(true, refused));
      }
      if transactionState == Idle {
        return Success;
      }
      var ok := PqExec(Command.Commit(refused));
      transactionState, statementSavepointActive := Idle, false;
      result := if ok then Success else Error;
    }

    method Rollback() returns (result: SqlReturn)
      modifies this
      ensures (View(), result) == old(View()).EndTransaction(Command.Rollback)
      ensures old(View()).Matched() ==>
                View().Matched() && (View().Observed(), result) == old(View()).Observed().End(false, false)
    {
      ghost var before := View();
      if before.Matched() {
        StepRefines(before, EndTran(false, false));
      }
      if transactionState == Idle {
        return Success;
      }
      var ok := PqExec(Command.Rollback);
      transactionState, statementSavepointActive := Idle, false;
      result := if ok then Success else Error;
    }

    // A matched session goes on without a block in autocommit mode and in an unharmed block
    // otherwise, and the data that a statement would see is the same.
    method EnsureTransaction(refused: bool) returns (result: SqlReturn)
      modifies this
      ensures (View(), result) == old(View()).EnsureTransaction(refused)
      ensures old(View()).Matched() && (autocommit || old(transactionState) == Failed) ==>
                result == Success && View() == old(View())
      ensures old(View()).Matched() && !autocommit && old(transactionState) != Failed ==>
                if refused && old(transactionState) == Idle then result == Error && View() == old(View())
                else
                  && result == Success && View().Begun() && server.committed == old(server).committed
                  && server.block.working ==
                     if old(server).block.Open? then old(server).block.working else server.committed
    {
      if autocommit || transactionState != Idle {
        return Success;
      }
      result := BeginTransaction(refused);
    }

    // Leaves one driver savepoint that holds the data from before the statement, or a block that
    // the server has given up.
    method BeginStatementSavepoint(refusal: Refusal)
      modifies this
      ensures View() == old(View()).BeginStatementSavepoint(refusal)
      ensures old(View()).Begun() ==>
                && server.committed == old(server).committed
                && View().Guarded(old(server).block.working,
                                  View().Mode() == ROLLBACK_ON_ERROR_STATEMENT
                                  && Refused(refusal, old(statementSavepointActive)))
    {
      if View().Begun() {
        SavepointGuards(View(), refusal);
      }
      if transactionState != Active {
        return;
      }
      var mode := EffectiveRollbackOnError();
      if mode != ROLLBACK_ON_ERROR_STATEMENT {
        return;
      }
      var ok := true;
      if statementSavepointActive {
        ok := PqExec(Release(STATEMENT_SAVEPOINT, refusal.ReleaseRefused?));
      }
      if ok {
        ok := PqExec(SetSavepoint(STATEMENT_SAVEPOINT, refusal.SavepointRefused?));
      }
      if ok {
        statementSavepointActive := true;
      } else {
        ok := PqExec(SetSavepoint(STATEMENT_SAVEPOINT, refusal.SavepointRefused?));
        statementSavepointActive := ok;
      }
    }

    // After a failed statement: the data of the savepoint is back, the transaction is dropped, or
    // it is left failed; driver and server agree again, and nothing is published.
    method HandleStatementError()
      modifies this
      ensures View() == old(View()).HandleStatementError()
      ensures old(View()).Broken() ==>
                && View().Matched() && server.committed == old(server).committed
                && View().Observed().pending ==
                   if old(statementSavepointActive) then Work(old(server).block.savepoints[0].data)
                   else if View().Mode() == ROLLBACK_ON_ERROR_TRANSACTION then Nothing
                   else Poisoned
    {
      if View().Broken() {
        ErrorHandled(View());
      }
      if transactionState != Failed {
        return;
      }
      var mode := EffectiveRollbackOnError();
      if mode == ROLLBACK_ON_ERROR_STATEMENT && statementSavepointActive {
        var ok := PqExec(RollbackTo(STATEMENT_SAVEPOINT));
        if ok {
          transactionState := Active;
        }
        return;
      }
      if mode == ROLLBACK_ON_ERROR_TRANSACTION {
        var _ := Rollback();
      }
    }

    method ExecuteStatement(statement: Statement<D>, refusal: Refusal) returns (result: SqlReturn)
      modifies this
      ensures (View(), result) == old(View()).ExecuteStatement(statement, refusal)
      ensures old(View()).Matched() ==>
                && View().Matched()
                && (View().Observed(), result) == old(View()).Observed().Exec(statement, View().Mode(), refusal)
    {
      hide Session.Matched, Session.Observed, Session.Begun, Session.Guarded, Session.Broken;
      ghost var before := View();
      if before.Matched() {
        ExecRefines(before, statement, refusal);
      }
      result := EnsureTransaction(refusal.BeginRefused?);
      if result != Success {
        return Error;
      }
      BeginStatementSavepoint(refusal);
      var ok := PqExec(Run(statement));
      if ok {
        return Success;
      }
      if transactionState == Active {
        transactionState := Failed;
      }
      HandleStatementError();
      return Error;
    }

    method SetAutocommit(on: bool, commitRefused: bool) returns (result: SqlReturn)
      modifies this
      ensures (View(), result) == old(View()).SetAutocommit(on, commitRefused)
      ensures old(View()).Matched() ==>
                && View().Matched()
                && (View().Observed(), result)
                   == old(View()).Observed().Step(Autocommit(on, commitRefused), View().Mode())
    {
      ghost var before := View();
      if before.Matched() {
        StepRefines(before, Autocommit(on, commitRefused));
      }
      if on && !autocommit && transactionState != Idle {
        if transactionState == Failed {
          var _ := Rollback();
        } else {
          result := Commit(commitRefused);
          if result != Success {
            return;
          }
        }
      }
      autocommit := on;
      return Success;
    }
  }
}
