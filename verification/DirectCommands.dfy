/**
 Commands that are sent past the protocol: straight to the server, with no transaction begun for
 them, no savepoint set and no failure marked. What they do to the match of driver and server, and to
 what the application can observe, when they are mixed with statements, SQLEndTran and autocommit.
 */
module DirectCommands {
  import opened PgServer
  import opened TransactionModel

  datatype MixedRequest<!D> = Protocol(request: Request<D>) | Direct(statement: Statement<D>)

  function MixedStep<D>(s: Session<D>, r: MixedRequest<D>): (Session<D>, SqlReturn) {
    match r
    case Protocol(request) => s.Step(request)
    case Direct(statement) =>
      var (server', ok) := Execute(s.server, Command.Run(statement));
      (s.(server := server'), if ok then Success else Error)
  }

  function MixedRun<D>(s: Session<D>, requests: seq<MixedRequest<D>>): (Session<D>, seq<SqlReturn>)
    decreases |requests|
  {
    if requests == [] then (s, [])
    else
      var (next, result) := MixedStep(s, requests[0]);
      var (last, results) := MixedRun(next, requests[1..]);
      (last, [result] + results)
  }

  // ---- A lost transaction ----

  predicate Aborted<D>(server: Server<D>) {
    server.block.Open? && server.block.aborted
  }

  // The driver takes a block for active that the server has given up.
  ghost predicate Lost<D>(s: Session<D>) {
    && !s.autocommit && s.state.Active? && Aborted(s.server) && |s.server.block.savepoints| <= 1
    && (s.savepointActive <==> s.Mode() == ROLLBACK_ON_ERROR_STATEMENT)
    && (s.server.block.savepoints != [] ==> s.server.block.savepoints[0].name == STATEMENT_SAVEPOINT)
  }

  // Driver and server are matched, or exactly one thing is wrong.
  ghost predicate Sound<D>(s: Session<D>) {
    s.Matched() || Lost(s)
  }

  lemma LostIsNotMatched<D>(s: Session<D>)
    requires Lost(s)
    ensures !s.Matched() && s.Observed().pending == Poisoned && !s.Observed().autocommit
  {
  }

  /**
   In a lost transaction the next statement fails and the work before it is gone: in statement mode
   the savepoint that was to protect it is given up, because releasing it fails in the lost block.
   */
  lemma LostStatement<D>(s: Session<D>, statement: Statement<D>, refusal: Refusal)
    requires Lost(s)
    ensures var (next, result) := s.ExecuteStatement(statement, refusal);
            && result == Error && next.Matched() && next.Mode() == s.Mode() && !next.autocommit
            && next.server.committed == s.server.committed
            && next.Observed().pending == if s.Mode() == ROLLBACK_ON_ERROR_TRANSACTION then Nothing else Poisoned
  {
    var guarded := s.BeginStatementSavepoint(refusal);
    assert guarded == s.(savepointActive := false);
  }

  lemma {:induction false} PoisonedRun<D>(s: Session<D>, attempts: seq<Attempt<D>>)
    requires s.Matched() && !s.autocommit && s.Observed().pending == Poisoned
    ensures var (last, results) := TransactionModel.Run(s, Requests(attempts));
            && last.Matched() && last.Observed() == s.Observed()
            && forall k :: 0 <= k < |results| ==> results[k] == Error
    decreases |attempts|
  {
    hide Session.Matched, Session.ExecuteStatement;
    if attempts != [] {
      var (next, result) := s.ExecuteStatement(attempts[0].statement, attempts[0].refusal);
      ExecRefines(s, attempts[0].statement, attempts[0].refusal);
      assert Requests(attempts)[1..] == Requests(attempts[1..]);
      PoisonedRun(next, attempts[1..]);
    }
  }

  /**
   Where statements are guarded by savepoints, which is the default, every statement after the
   refusal fails, and the COMMIT that ends the transaction reports success and publishes nothing.
   */
  lemma LostRun<D>(s: Session<D>, attempts: seq<Attempt<D>>, refused: bool)
    requires Lost(s) && s.Mode() != ROLLBACK_ON_ERROR_TRANSACTION
    ensures var (last, results) := TransactionModel.Run(s, Requests(attempts));
            var (ended, result) := last.EndTransaction(Command.Commit(refused));
            && (forall k :: 0 <= k < |results| ==> results[k] == Error)
            && result == Success && ended.server == Server(s.server.committed, NoBlock) && ended.Matched()
  {
    if attempts == [] {
      LostEnds(s, refused);
    } else {
      hide Lost, Aborted, Session.ExecuteStatement, Session.EndTransaction, Session.Matched;
      var first := attempts[0];
      var next := s.ExecuteStatement(first.statement, first.refusal).0;
      LostStatement(s, first.statement, first.refusal);
      assert Requests(attempts)[1..] == Requests(attempts[1..]);
      PoisonedRun(next, attempts[1..]);
      PoisonedEnds(TransactionModel.Run(next, Requests(attempts[1..])).0, refused);
    }
  }

  lemma LostEnds<D>(s: Session<D>, refused: bool)
    requires Lost(s)
    ensures var (ended, result) := s.EndTransaction(Command.Commit(refused));
            result == Success && ended.server == Server(s.server.committed, NoBlock) && ended.Matched()
  {
  }

  lemma PoisonedEnds<D>(s: Session<D>, refused: bool)
    requires s.Matched() && !s.autocommit && s.Observed().pending == Poisoned
    ensures var (ended, result) := s.EndTransaction(Command.Commit(refused));
            && result == Success && ended.Matched()
            && ended.server == Server(s.Observed().committed, NoBlock)
  {
  }

  // ---- The ledger of a mixed run ----

  function MixedLedgerStep<D>(l: Ledger<D>, r: MixedRequest<D>, mode: int): (Ledger<D>, SqlReturn) {
    match r
    case Protocol(request) =>
      // a statement that fails in a lost transaction drops it when the mode says so
      if request.Exec? && l.pending.Poisoned? && !l.autocommit && mode == ROLLBACK_ON_ERROR_TRANSACTION then
        (l.(pending := Nothing), Error)
      else l.Step(request, mode)
    case Direct(statement) =>
      match l.pending
      case Nothing =>
        (match statement(l.committed)
         case Completed(data) => (l.(committed := data), Success)
         case Errored(_) => (l, Error))
      case Work(before) =>
        (match statement(before)
         case Completed(data) => (l.(pending := Work(data)), Success)
         case Errored(_) => (l.(pending := Poisoned), Error))
      case Poisoned => (l, Error)
  }

  function MixedLedgerRun<D>(l: Ledger<D>, mode: int, requests: seq<MixedRequest<D>>): (Ledger<D>, seq<SqlReturn>)
    decreases |requests|
  {
    if requests == [] then (l, [])
    else
      var (next, result) := MixedLedgerStep(l, requests[0], mode);
      var (last, results) := MixedLedgerRun(next, mode, requests[1..]);
      (last, [result] + results)
  }

  // Whether the transaction is lost behind the request: a direct command was refused in an
  // unharmed block, and nothing but direct commands and switching autocommit off followed.
  predicate LostBehind<D>(lost: bool, l: Ledger<D>, r: MixedRequest<D>) {
    match r
    case Direct(statement) => lost || (l.pending.Work? && statement(l.pending.data).Errored?)
    case Protocol(request) => lost && request.Autocommit? && !request.on
  }

  predicate LostBehindAll<D>(lost: bool, l: Ledger<D>, mode: int, requests: seq<MixedRequest<D>>)
    decreases |requests|
  {
    if requests == [] then lost
    else
      LostBehindAll(LostBehind(lost, l, requests[0]), MixedLedgerStep(l, requests[0], mode).0, mode, requests[1..])
  }

  lemma DirectRefines<D>(s: Session<D>, statement: Statement<D>)
    requires Sound(s)
    ensures var (next, result) := MixedStep(s, Direct(statement));
            && Sound(next) && next.Mode() == s.Mode()
            && MixedLedgerStep(s.Observed(), Direct(statement), s.Mode()) == (next.Observed(), result)
            && (Lost(next) <==> LostBehind(Lost(s), s.Observed(), Direct(statement)))
  {
  }

  lemma LostProtocolRefines<D>(s: Session<D>, request: Request<D>)
    requires Lost(s)
    ensures var (next, result) := s.Step(request);
            && Sound(next) && next.Mode() == s.Mode()
            && MixedLedgerStep(s.Observed(), Protocol(request), s.Mode()) == (next.Observed(), result)
            && (Lost(next) <==> request.Autocommit? && !request.on)
  {
    hide Session.ExecuteStatement, Session.BeginStatementSavepoint;
    match request
    case Exec(statement, refusal) => LostStatement(s, statement, refusal);
    case EndTran(_, _) =>
    case Autocommit(_, _) =>
  }

  lemma MatchedIsNotPoisoned<D>(s: Session<D>)
    requires s.Matched()
    ensures !Lost(s)
    ensures s.Mode() == ROLLBACK_ON_ERROR_TRANSACTION ==> !s.Observed().pending.Poisoned?
  {
  }

  /** One request of either kind does what the ledger says, and the transaction is lost exactly as the ledger says. */
  lemma MixedStepRefines<D>(s: Session<D>, r: MixedRequest<D>)
    requires Sound(s)
    ensures var (next, result) := MixedStep(s, r);
            && Sound(next) && next.Mode() == s.Mode()
            && MixedLedgerStep(s.Observed(), r, s.Mode()) == (next.Observed(), result)
            && (Lost(next) <==> LostBehind(Lost(s), s.Observed(), r))
  {
    hide Session.Matched, Session.Step, Session.Observed, Ledger.Step;
    match r
    case Direct(statement) => DirectRefines(s, statement);
    case Protocol(request) =>
      if Lost(s) {
        LostProtocolRefines(s, request);
      } else {
        MatchedIsNotPoisoned(s);
        StepRefines(s, request);
        MatchedIsNotPoisoned(s.Step(request).0);
      }
  }

  /**
   Over any run of statements, SQLEndTran calls, autocommit switches and direct commands, what the
   application observes and is told is what the ledger says, and driver and server are matched in the
   end if and only if no direct command has lost the transaction since the last statement or
   SQLEndTran.
   */
  lemma {:induction false} MixedRunRefines<D>(s: Session<D>, requests: seq<MixedRequest<D>>)
    requires Sound(s)
    ensures var (last, results) := MixedRun(s, requests);
            && Sound(last) && MixedLedgerRun(s.Observed(), s.Mode(), requests) == (last.Observed(), results)
            && (last.Matched() <==> !LostBehindAll(Lost(s), s.Observed(), s.Mode(), requests))
    decreases |requests|
  {
    hide Session.Matched, Lost, MixedStep, Session.Observed, MixedLedgerStep, LostBehind;
    if requests != [] {
      MixedStepRefines(s, requests[0]);
      MixedRunRefines(MixedStep(s, requests[0]).0, requests[1..]);
    } else {
      SoundIsOne(s);
    }
  }

  lemma SoundIsOne<D>(s: Session<D>)
    requires Sound(s)
    ensures s.Matched() <==> !Lost(s)
  {
  }

  // ---- What COMMIT publishes ----

  datatype Effort<!D> = Attempted(attempt: Attempt<D>) | Sent(statement: Statement<D>)

  function RequestOf<D>(effort: Effort<D>): MixedRequest<D> {
    match effort
    case Attempted(attempt) => Protocol(Exec(attempt.statement, attempt.refusal))
    case Sent(statement) => Direct(statement)
  }

  function MixedRequests<D>(efforts: seq<Effort<D>>): seq<MixedRequest<D>> {
    if efforts == [] then [] else [RequestOf(efforts[0])] + MixedRequests(efforts[1..])
  }

  // An effort has the effect of its statement when that succeeds.
  function After<D>(data: D, open: bool, effort: Effort<D>): D {
    match effort
    case Attempted(attempt) =>
      (if NotBegun(attempt, open) then data
       else
         match attempt.statement(data)
         case Completed(next) => next
         case Errored(_) => data)
    case Sent(statement) =>
      match statement(data)
      case Completed(next) => next
      case Errored(_) => data
  }

  predicate OpenAfter<D>(open: bool, effort: Effort<D>) {
    open || (effort.Attempted? && !NotBegun(effort.attempt, open))
  }

  // All efforts that succeed, in order.
  function Kept<D>(data: D, open: bool, efforts: seq<Effort<D>>): D
    decreases |efforts|
  {
    if efforts == [] then data
    else Kept(After(data, open, efforts[0]), OpenAfter(open, efforts[0]), efforts[1..])
  }

  // A savepoint command is refused to a statement, or a command sent past the protocol fails in
  // the open transaction.
  predicate Spoils<D>(data: D, open: bool, effort: Effort<D>) {
    match effort
    case Attempted(attempt) => !NotBegun(attempt, open) && Refused(attempt.refusal, open)
    case Sent(statement) => open && statement(data).Errored?
  }

  predicate Spoiled<D>(data: D, open: bool, efforts: seq<Effort<D>>)
    decreases |efforts|
  {
    efforts != [] &&
    (Spoils(data, open, efforts[0])
     || Spoiled(After(data, open, efforts[0]), OpenAfter(open, efforts[0]), efforts[1..]))
  }

  // The data when the first statement begins the transaction: what was sent before is published.
  function BeforeFirst<D>(data: D, efforts: seq<Effort<D>>): D
    decreases |efforts|
  {
    if efforts == [] || OpenAfter(false, efforts[0]) then data
    else BeforeFirst(After(data, false, efforts[0]), efforts[1..])
  }

  lemma {:induction false} SpoiledStays<D>(l: Ledger<D>, efforts: seq<Effort<D>>)
    requires !l.autocommit && l.pending.Poisoned?
    ensures MixedLedgerRun(l, ROLLBACK_ON_ERROR_STATEMENT, MixedRequests(efforts)).0 == l
    decreases |efforts|
  {
    if efforts != [] {
      assert MixedRequests(efforts)[1..] == MixedRequests(efforts[1..]);
      SpoiledStays(l, efforts[1..]);
    }
  }

  lemma {:induction false} OpenPublishes<D>(l: Ledger<D>, efforts: seq<Effort<D>>)
    requires !l.autocommit && l.pending.Work?
    ensures var last := MixedLedgerRun(l, ROLLBACK_ON_ERROR_STATEMENT, MixedRequests(efforts)).0;
            last.End(true, false).0.committed ==
            if Spoiled(l.pending.data, true, efforts) then l.committed else Kept(l.pending.data, true, efforts)
    decreases |efforts|
  {
    if efforts != [] {
      var requests := MixedRequests(efforts);
      assert requests[1..] == MixedRequests(efforts[1..]);
      var next := MixedLedgerStep(l, requests[0], ROLLBACK_ON_ERROR_STATEMENT).0;
      if Spoils(l.pending.data, true, efforts[0]) {
        SpoiledStays(next, efforts[1..]);
      } else {
        OpenPublishes(next, efforts[1..]);
      }
    }
  }

  lemma {:induction false} IdlePublishes<D>(l: Ledger<D>, efforts: seq<Effort<D>>)
    requires !l.autocommit && l.pending.Nothing?
    ensures var last := MixedLedgerRun(l, ROLLBACK_ON_ERROR_STATEMENT, MixedRequests(efforts)).0;
            last.End(true, false).0.committed ==
            if Spoiled(l.committed, false, efforts) then BeforeFirst(l.committed, efforts)
            else Kept(l.committed, false, efforts)
    decreases |efforts|
  {
    if efforts != [] {
      var requests := MixedRequests(efforts);
      assert requests[1..] == MixedRequests(efforts[1..]);
      var next := MixedLedgerStep(l, requests[0], ROLLBACK_ON_ERROR_STATEMENT).0;
      if Spoils(l.committed, false, efforts[0]) {
        SpoiledStays(next, efforts[1..]);
      } else if OpenAfter(false, efforts[0]) {
        OpenPublishes(next, efforts[1..]);
      } else {
        IdlePublishes(next, efforts[1..]);
      }
    }
  }

  /**
   With statements guarded by savepoints, which is the default, COMMIT after any run of statements and
   direct commands publishes all that succeeded of both. One refused savepoint command, or one direct
   command that fails in the open transaction, leaves only what was sent before the first statement.
   */
  lemma CommitPublishesMixed<D>(s: Session<D>, efforts: seq<Effort<D>>)
    requires s.Matched() && !s.autocommit && s.state.Idle? && s.Mode() == ROLLBACK_ON_ERROR_STATEMENT
    ensures var last := MixedRun(s, MixedRequests(efforts)).0;
            var (ended, result) := last.Step(EndTran(true, false));
            && result == Success && ended.Matched()
            && ended.server.committed ==
               if Spoiled(s.server.committed, false, efforts) then BeforeFirst(s.server.committed, efforts)
               else Kept(s.server.committed, false, efforts)
  {
    hide Session.Matched, Lost, MixedRun, MixedLedgerRun, Kept, Spoiled, BeforeFirst;
    IdleObserved(s);
    MixedRunRefines(s, MixedRequests(efforts));
    IdlePublishes(s.Observed(), efforts);
    EndRefines(MixedRun(s, MixedRequests(efforts)).0);
  }

  lemma IdleObserved<D>(s: Session<D>)
    requires s.Matched() && !s.autocommit && s.state.Idle?
    ensures s.Observed() == Ledger(false, s.server.committed, Nothing)
  {
  }

  lemma EndRefines<D>(s: Session<D>)
    requires Sound(s)
    ensures var (ended, result) := s.Step(EndTran(true, false));
            && ended.Matched() && (ended.Observed(), result) == s.Observed().End(true, false)
            && ended.server.committed == ended.Observed().committed && result == Success
  {
  }

  // ---- The same for every mode ----

  // A statement that runs fails in a mode that gives up the transaction for it, or something spoils
  // the transaction.
  predicate GivesUp<D>(data: D, open: bool, mode: int, effort: Effort<D>) {
    match effort
    case Attempted(attempt) =>
      !NotBegun(attempt, open) &&
      if mode == ROLLBACK_ON_ERROR_STATEMENT then Refused(attempt.refusal, open) else attempt.statement(data).Errored?
    case Sent(statement) => open && statement(data).Errored?
  }

  // Behind the next statement: it fails in a transaction lost before, and drops it.
  function BehindNext<D>(efforts: seq<Effort<D>>): (rest: seq<Effort<D>>)
    ensures |rest| <= |efforts|
  {
    if efforts == [] then [] else if efforts[0].Attempted? then efforts[1..] else BehindNext(efforts[1..])
  }

  // What COMMIT publishes, from what was published before and what the open transaction holds.
  function PublishedByAll<D>(base: D, data: D, open: bool, mode: int, efforts: seq<Effort<D>>): D
    decreases |efforts|
  {
    if efforts == [] then data
    else if !GivesUp(data, open, mode, efforts[0]) then
      var (next, open') := (After(data, open, efforts[0]), OpenAfter(open, efforts[0]));
      PublishedByAll(if open' then base else next, next, open', mode, efforts[1..])
    else if mode != ROLLBACK_ON_ERROR_TRANSACTION then base
    else
      PublishedByAll(base, base, false, mode, if efforts[0].Sent? then BehindNext(efforts[1..]) else efforts[1..])
  }

  function EndsWith<D>(l: Ledger<D>): D {
    l.End(true, false).0.committed
  }

  lemma {:induction false} GivenUpStays<D>(l: Ledger<D>, mode: int, efforts: seq<Effort<D>>)
    requires !l.autocommit && l.pending.Poisoned? && mode != ROLLBACK_ON_ERROR_TRANSACTION
    ensures MixedLedgerRun(l, mode, MixedRequests(efforts)).0 == l
    decreases |efforts|
  {
    if efforts != [] {
      assert MixedRequests(efforts)[1..] == MixedRequests(efforts[1..]);
      GivenUpStays(l, mode, efforts[1..]);
    }
  }

  lemma {:induction false} NextDrops<D>(l: Ledger<D>, efforts: seq<Effort<D>>)
    requires !l.autocommit && l.pending.Poisoned?
    ensures var mode := ROLLBACK_ON_ERROR_TRANSACTION;
            EndsWith(MixedLedgerRun(l, mode, MixedRequests(efforts)).0) ==
            EndsWith(MixedLedgerRun(l.(pending := Nothing), mode, MixedRequests(BehindNext(efforts))).0)
    decreases |efforts|
  {
    if efforts != [] {
      assert MixedRequests(efforts)[1..] == MixedRequests(efforts[1..]);
      if efforts[0].Sent? {
        NextDrops(l, efforts[1..]);
      }
    }
  }

  lemma {:induction false} LedgerPublishesAll<D>(l: Ledger<D>, mode: int, efforts: seq<Effort<D>>)
    requires !l.autocommit && !l.pending.Poisoned?
    ensures var data := if l.pending.Work? then l.pending.data else l.committed;
            EndsWith(MixedLedgerRun(l, mode, MixedRequests(efforts)).0) ==
            PublishedByAll(l.committed, data, l.pending.Work?, mode, efforts)
    decreases |efforts|
  {
    if efforts != [] {
      var requests, open := MixedRequests(efforts), l.pending.Work?;
      var data := if open then l.pending.data else l.committed;
      assert requests[1..] == MixedRequests(efforts[1..]);
      var next := MixedLedgerStep(l, requests[0], mode).0;
      StepPublishes(l, mode, efforts[0]);
      hide GivesUp, MixedLedgerStep, After, OpenAfter, EndsWith, RequestOf;
      if !next.pending.Poisoned? {
        LedgerPublishesAll(next, mode, efforts[1..]);
      } else if mode != ROLLBACK_ON_ERROR_TRANSACTION {
        GivenUpStays(next, mode, efforts[1..]);
        PoisonedEndsWith(next);
      } else {
        NextDrops(next, efforts[1..]);
        LedgerPublishesAll(next.(pending := Nothing), mode, BehindNext(efforts[1..]));
      }
    }
  }

  lemma PoisonedEndsWith<D>(l: Ledger<D>)
    requires l.pending.Poisoned?
    ensures EndsWith(l) == l.committed
  {
  }

  // One effort on the ledger.
  lemma StepPublishes<D>(l: Ledger<D>, mode: int, effort: Effort<D>)
    requires !l.autocommit && !l.pending.Poisoned?
    ensures var open := l.pending.Work?;
            var data := if open then l.pending.data else l.committed;
            var next := MixedLedgerStep(l, RequestOf(effort), mode).0;
            && !next.autocommit
            && if !GivesUp(data, open, mode, effort) then
                 && next.committed == (if OpenAfter(open, effort) then l.committed else After(data, open, effort))
                 && next.pending == if OpenAfter(open, effort) then Work(After(data, open, effort)) else Nothing
               else
                 && next.committed == l.committed
                 && next.pending == (if effort.Attempted? && mode == ROLLBACK_ON_ERROR_TRANSACTION then Nothing
                                     else Poisoned)
  {
  }

  /**
   In every mode COMMIT publishes the fold of the statements and direct commands that succeed. What
   gives up the transaction takes back to what was published before: for good, or in transaction mode
   up to the next statement, behind which the fold starts over.
   */
  lemma CommitPublishesByMode<D>(s: Session<D>, efforts: seq<Effort<D>>)
    requires s.Matched() && !s.autocommit && s.state.Idle?
    ensures var last := MixedRun(s, MixedRequests(efforts)).0;
            var (ended, result) := last.Step(EndTran(true, false));
            && result == Success && ended.Matched()
            && ended.server.committed ==
               PublishedByAll(s.server.committed, s.server.committed, false, s.Mode(), efforts)
  {
    hide Session.Matched, Lost, MixedRun, MixedLedgerRun, PublishedByAll;
    var last := MixedRun(s, MixedRequests(efforts)).0;
    MixedRunRefines(s, MixedRequests(efforts));
    IdleObserved(s);
    LedgerPublishesAll(s.Observed(), s.Mode(), efforts);
    EndRefines(last);
  }
}
