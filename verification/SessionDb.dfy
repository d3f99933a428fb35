/** The session database as an object: statements run under busy-retry, and the
    calls that interpret how many rows they changed. */
module SessionDb {
  import opened Prelude
  import opened Runs
  import opened SessionTables
  import opened TurnLeases

  const MAX_RETRIES: nat := 15
  const WAL_CHECKPOINT_EVERY: nat := 50

  /** What the store does with one attempt: refuses it busy and untouched, fails
      for another reason and untouched, or runs it. */
  datatype Attempt = Busy | Fails | Commits

  datatype DbError = StoreBusy | StoreFailed | ConstraintFailed | NoSuchTurn | LeaseLost

  /** The logical turn on whose behalf a caller writes. */
  datatype Binding = Binding(turn: string, owner: string, lost: bool)

  /** The guard of transcript and journal writes. */
  predicate MayWrite(tables: Tables, binding: Option<Binding>) {
    binding.None?
    || (!binding.value.lost && binding.value.turn in tables.turns
        && tables.turns[binding.value.turn].owner == Some(binding.value.owner))
  }

  /** A caller bound to no turn always may; a bound one exactly while it has the turn's lease
      and has not been told that it lost it. */
  lemma MayWriteIff(tables: Tables, binding: Option<Binding>)
    ensures MayWrite(tables, binding) <==>
      forall b :: binding == Some(b) ==> !b.lost && OwnedBy(tables, b.turn, b.owner)
  {}

  /** The first attempt that the store does not refuse busy, within the retries. */
  ghost predicate Decides(attempt: nat -> Attempt, i: nat) {
    i < MAX_RETRIES && attempt(i) != Busy && forall j: nat :: j < i ==> attempt(j) == Busy
  }

  ghost predicate AlwaysBusy(attempt: nat -> Attempt) {
    forall i: nat :: !Decides(attempt, i)
  }

  ghost predicate Reached(attempt: nat -> Attempt, outcome: Attempt) {
    exists i: nat {:trigger Decides(attempt, i)} :: Decides(attempt, i) && attempt(i) == outcome
  }

  /** How many attempts it takes. */
  ghost function Attempts(attempt: nat -> Attempt): nat {
    if AlwaysBusy(attempt) then MAX_RETRIES else
    var i: nat :| Decides(attempt, i);
    i + 1
  }

  lemma DecidedAt(attempt: nat -> Attempt, i: nat)
    requires Decides(attempt, i)
    ensures !AlwaysBusy(attempt) && Attempts(attempt) == i + 1 && Reached(attempt, attempt(i))
  {
    var j := Attempts(attempt) - 1;
    assert Decides(attempt, j);
    assert attempt(i) != Busy && attempt(j) != Busy;
    assert i == j;
  }

  lemma RanOut(attempt: nat -> Attempt)
    requires forall j: nat :: j < MAX_RETRIES ==> attempt(j) == Busy
    ensures AlwaysBusy(attempt) && Attempts(attempt) == MAX_RETRIES
  {}

  lemma OneRoundMore(tables: Tables, others: nat -> seq<Statement>, n: nat)
    ensures AfterRounds(Step, tables, others, n + 1) == End(Step, AfterRounds(Step, tables, others, n), others(n))
  {}

  /** The tables that the last attempt finds: before each, other writers have run a
      round of statements. */
  ghost function Found(tables: Tables, attempt: nat -> Attempt, others: nat -> seq<Statement>): Tables {
    AfterRounds(Step, tables, others, Attempts(attempt))
  }

  /** What an attempt that the store lets run reports. */
  function Report(effect: Effect): Result<nat, DbError> {
    if effect.Violates? then Failure(ConstraintFailed) else Success(effect.rows)
  }

  /** What the call reports: the outcome of the first attempt not refused busy. */
  ghost function Answer(found: Tables, attempt: nat -> Attempt, s: Statement): Result<nat, DbError> {
    if AlwaysBusy(attempt) then Failure(StoreBusy)
    else if Reached(attempt, Fails) then Failure(StoreFailed)
    else Report(Apply(found, s))
  }

  /** Not due one lease length before the new expiry. */
  predicate NotDue(tables: Tables, turn: string, expiresAt: int)
    requires turn in tables.turns
  {
    match tables.turns[turn].expiresAt
    case Some(end) => end + LOGICAL_TURN_LEASE_MS > expiresAt
    case None => false
  }

  /** The journal keeps a completed row against one that is not. */
  predicate Stays(tables: Tables, key: ToolKey, row: ToolRow) {
    key in tables.tools && tables.tools[key].state == Completed && row.state != Completed
  }

  /** The estimate for a price supplied without a receipt. */
  function LegacyEstimate(cost: Option<Amount>): Estimate {
    if cost.Some? && cost.value.Finite? && cost.value.value >= 0.0
    then Estimate(cost, true, "legacy-caller")
    else Estimate(None, false, "legacy-caller")
  }

  /** It counts exactly when the price is a finite amount of at least nothing, and as that. */
  lemma LegacyCounts(cost: Option<Amount>)
    ensures Known(LegacyEstimate(cost)) <==> cost.Some? && cost.value.Finite? && cost.value.value >= 0.0
    ensures Known(LegacyEstimate(cost)) ==> Some(Finite(KnownAmount(LegacyEstimate(cost)))) == cost
    ensures LegacyEstimate(cost).provenance == "legacy-caller"
    ensures !Known(LegacyEstimate(cost)) ==>
      LegacyEstimate(cost).amount.None? && !LegacyEstimate(cost).complete && KnownAmount(LegacyEstimate(cost)) == 0.0
  {}

  class SessionDb {
    var tables: Tables
    var writeCount: nat
    var truncations: nat

    constructor ()
      ensures tables == EMPTY && writeCount == 0 && truncations == 0
    {
      tables, writeCount, truncations := EMPTY, 0, 0;
    }

    /** Whether a write was counted; every so many counted ones truncate the log. */
    twostate predicate Counts(counted: bool)
      reads this
    {
      && writeCount == old(writeCount) + (if counted then 1 else 0)
      && truncations == old(truncations)
           + (if counted && (old(writeCount) + 1) % WAL_CHECKPOINT_EVERY == 0 then 1 else 0)
    }

    /** One attempt that the store lets run. */
    method Commit(s: Statement, checkpoint: bool) returns (r: Result<nat, DbError>)
      modifies this
      ensures r == Report(Apply(old(tables), s))
      ensures tables == if r.Success? then Step(old(tables), s) else old(tables)
      ensures Counts(r.Success? && checkpoint)
    {
      var effect := Apply(tables, s);
      if effect.Violates? {
        return Failure(ConstraintFailed);
      }
      tables := effect.tables;
      if checkpoint {
        writeCount := writeCount + 1;
        if writeCount % WAL_CHECKPOINT_EVERY == 0 {
          truncations := truncations + 1;
        }
      }
      return Success(effect.rows);
    }

    /** Asks the store until it does not refuse busy; between the attempts the caller
        sleeps and other writers run. */
    method Await(attempt: nat -> Attempt, others: nat -> seq<Statement>) returns (outcome: Attempt)
      modifies this`tables
      ensures tables == Found(old(tables), attempt, others)
      ensures outcome == Busy <==> AlwaysBusy(attempt)
      ensures outcome != Busy ==> Reached(attempt, outcome)
    {
      for i := 0 to MAX_RETRIES
        invariant forall j: nat :: j < i ==> attempt(j) == Busy
        invariant tables == AfterRounds(Step, old(tables), others, i)
      {
        OneRoundMore(old(tables), others, i);
        tables := End(Step, tables, others(i));
        if attempt(i) != Busy {
          DecidedAt(attempt, i);
          return attempt(i);
        }
      }
      RanOut(attempt);
      return Busy;
    }

    /** Runs the statement at most once, however often the store is busy, on the
        tables that the other writers have left by then. */
    method WriteWithRetry(s: Statement, attempt: nat -> Attempt, others: nat -> seq<Statement>, checkpoint: bool)
        returns (r: Result<nat, DbError>)
      modifies this
      ensures var found := Found(old(tables), attempt, others);
        && r == Answer(found, attempt, s)
        && tables == if r.Success? then Step(found, s) else found
      ensures Counts(r.Success? && checkpoint)
    {
      var outcome := Await(attempt, others);
      match outcome
      case Busy =>
        return Failure(StoreBusy);
      case Fails =>
        return Failure(StoreFailed);
      case Commits =>
        r := Commit(s, checkpoint);
    }

    method CreateLogicalTurn(record: TurnRecord, attempt: nat -> Attempt, others: nat -> seq<Statement>)
        returns (r: Result<nat, DbError>)
      modifies this
      ensures var found := Found(old(tables), attempt, others);
        && (r.Success? <==> Reached(attempt, Commits) && record.turnId !in found.turns)
        && tables == if r.Success? then Step(found, CreateTurn(record)) else found
      ensures Counts(r.Success?)
    {
      r := WriteWithRetry(CreateTurn(record), attempt, others, true);
    }

    /** Other writers may run `later` between the update and the query that tells a
        missing turn from a lost lease. */
    method SaveLogicalTurn(record: TurnRecord, owner: string, attempt: nat -> Attempt, others: nat -> seq<Statement>,
        later: seq<Statement>) returns (r: Result<(), DbError>)
      modifies this
      ensures var found := Found(old(tables), attempt, others);
        var asked := End(Step, found, later);
        && (Reached(attempt, Commits) ==>
              (r.Success? <==> OwnedBy(found, record.turnId, owner))
              && (r == Failure(NoSuchTurn) <==>
                    !OwnedBy(found, record.turnId, owner) && record.turnId !in asked.turns)
              && (r == Failure(LeaseLost) <==>
                    !OwnedBy(found, record.turnId, owner) && record.turnId in asked.turns))
        && (r.Success? ==> Reached(attempt, Commits) && tables == Step(found, SaveTurn(record, owner)))
        && (r.Failure? ==> tables == if r.error in {NoSuchTurn, LeaseLost} then asked else found)
      ensures Counts(Reached(attempt, Commits))
    {
      var changes :- WriteWithRetry(SaveTurn(record, owner), attempt, others, true);
      if changes == 1 {
        return Success(());
      }
      tables := End(Step, tables, later);
      if record.turnId !in tables.turns {
        return Failure(NoSuchTurn);
      }
      return Failure(LeaseLost);
    }

    method AcquireLogicalTurnLease(turn: string, owner: string, expiresAt: int, now: int, attempt: nat -> Attempt,
        others: nat -> seq<Statement>) returns (r: Result<bool, DbError>)
      modifies this
      ensures var found := Found(old(tables), attempt, others);
        && (r.Success? <==> Reached(attempt, Commits))
        && (r.Success? ==> r.value == (turn in found.turns && Free(found, turn, owner, now)))
        && tables == if r == Success(true) then Step(found, AcquireLease(turn, owner, expiresAt, now)) else found
      ensures r == Success(true) ==> forall other :: OwnedBy(tables, turn, other) <==> other == owner
      ensures Counts(r.Success?)
    {
      AcquireIff(Found(tables, attempt, others), turn, owner, expiresAt, now);
      var changes :- WriteWithRetry(AcquireLease(turn, owner, expiresAt, now), attempt, others, true);
      return Success(changes == 1);
    }

    method RenewLogicalTurnLease(turn: string, owner: string, expiresAt: int, countCheckpoint: bool,
        attempt: nat -> Attempt, others: nat -> seq<Statement>) returns (r: Result<bool, DbError>)
      modifies this
      ensures var found := Found(old(tables), attempt, others);
        && (r.Success? <==> Reached(attempt, Commits))
        && (r.Success? ==> r.value == (OwnedBy(found, turn, owner) && NotDue(found, turn, expiresAt)))
        && tables == if r == Success(true) then Step(found, RenewLease(turn, owner, expiresAt)) else found
      ensures Counts(r.Success? && countCheckpoint)
    {
      var changes :- WriteWithRetry(RenewLease(turn, owner, expiresAt), attempt, others, countCheckpoint);
      return Success(changes == 1);
    }

    method ReleaseLogicalTurnLease(turn: string, owner: string, attempt: nat -> Attempt,
        others: nat -> seq<Statement>) returns (r: Result<nat, DbError>)
      modifies this
      ensures var found := Found(old(tables), attempt, others);
        tables == if r.Success? then Step(found, ReleaseLease(turn, owner)) else found
      ensures r.Success? <==> Reached(attempt, Commits)
      ensures Counts(r.Success?)
    {
      r := WriteWithRetry(ReleaseLease(turn, owner), attempt, others, true);
    }

    /** Bound to a turn, the write needs that turn's lease when it is asked for; told of
        a released turn, it commits only while nobody holds it. */
    method ReplaceMessageContent(binding: Option<Binding>, message: nat, content: string, turn: Option<string>,
        attempt: nat -> Attempt, others: nat -> seq<Statement>) returns (r: Result<bool, DbError>)
      modifies this
      ensures r == Failure(LeaseLost) <==> !MayWrite(old(tables), binding)
      ensures r == Failure(LeaseLost) ==> tables == old(tables)
      ensures MayWrite(old(tables), binding) ==>
        var found := Found(old(tables), attempt, others);
        && (r.Success? <==> Reached(attempt, Commits))
        && (r.Success? ==> r.value == (message in found.messages && (turn.Some? ==> !Held(found, turn.value))))
        && tables == if r == Success(true) then Step(found, ReplaceContent(message, content, turn)) else found
      ensures Counts(r.Success?)
    {
      if !MayWrite(tables, binding) {
        return Failure(LeaseLost);
      }
      var changes :- WriteWithRetry(ReplaceContent(message, content, turn), attempt, others, true);
      return Success(changes > 0);
    }

    method TruncateMessages(binding: Option<Binding>, session: string, keep: real, attempt: nat -> Attempt,
        others: nat -> seq<Statement>) returns (r: Result<nat, DbError>)
      modifies this
      ensures r == Failure(LeaseLost) <==> !MayWrite(old(tables), binding)
      ensures r == Failure(LeaseLost) ==> tables == old(tables)
      ensures MayWrite(old(tables), binding) ==>
        var found := Found(old(tables), attempt, others);
        && (r.Success? <==> Reached(attempt, Commits))
        && tables == if r.Success? then Step(found, Statement.TruncateMessages(session, keep)) else found
      ensures Counts(r.Success?)
    {
      if !MayWrite(tables, binding) {
        return Failure(LeaseLost);
      }
      r := WriteWithRetry(Statement.TruncateMessages(session, keep), attempt, others, true);
    }

    method SaveToolExecution(binding: Option<Binding>, key: ToolKey, row: ToolRow, attempt: nat -> Attempt,
        others: nat -> seq<Statement>) returns (r: Result<nat, DbError>)
      modifies this
      ensures r == Failure(LeaseLost) <==> !MayWrite(old(tables), binding)
      ensures r == Failure(LeaseLost) ==> tables == old(tables)
      ensures MayWrite(old(tables), binding) ==>
        var found := Found(old(tables), attempt, others);
        && (r.Success? <==>
              Reached(attempt, Commits) && key.session in found.sessions && key.message in found.messages)
        && tables == if r.Success? && !Stays(found, key, row) then found.(tools := found.tools[key := row]) else found
      ensures Counts(r.Success?)
    {
      if !MayWrite(tables, binding) {
        return Failure(LeaseLost);
      }
      r := WriteWithRetry(SaveTool(key, row), attempt, others, true);
    }

    method RecordUsageEstimate(binding: Option<Binding>, session: string, usage: Usage, estimate: Estimate,
        attempt: nat -> Attempt, others: nat -> seq<Statement>) returns (r: Result<nat, DbError>)
      modifies this
      ensures r == Failure(LeaseLost) <==> !MayWrite(old(tables), binding)
      ensures r == Failure(LeaseLost) ==> tables == old(tables)
      ensures MayWrite(old(tables), binding) ==>
        var found := Found(old(tables), attempt, others);
        && (r.Success? <==> Reached(attempt, Commits) && session in found.sessions)
        && tables == if r.Success? then Step(found, RecordUsage(session, usage, estimate)) else found
      ensures Counts(r.Success?)
    {
      if !MayWrite(tables, binding) {
        return Failure(LeaseLost);
      }
      r := WriteWithRetry(RecordUsage(session, usage, estimate), attempt, others, true);
    }

    method RecordCompactionUsage(binding: Option<Binding>, session: string, usage: Usage, cost: Option<Amount>,
        receipt: Option<Estimate>, attempt: nat -> Attempt, others: nat -> seq<Statement>)
        returns (r: Result<nat, DbError>)
      modifies this
      ensures r == Failure(LeaseLost) <==> !MayWrite(old(tables), binding)
      ensures r == Failure(LeaseLost) ==> tables == old(tables)
      ensures MayWrite(old(tables), binding) ==>
        var found := Found(old(tables), attempt, others);
        var estimate := if receipt.Some? then receipt.value else LegacyEstimate(cost);
        && (r.Success? <==> Reached(attempt, Commits) && session in found.sessions)
        && tables == if r.Success? then Step(found, RecordCompaction(session, usage, estimate)) else found
      ensures Counts(r.Success?)
    {
      if !MayWrite(tables, binding) {
        return Failure(LeaseLost);
      }
      var estimate := if receipt.Some? then receipt.value else LegacyEstimate(cost);
      r := WriteWithRetry(RecordCompaction(session, usage, estimate), attempt, others, true);
    }

    method DeleteSession(session: string, attempt: nat -> Attempt, others: nat -> seq<Statement>)
        returns (r: Result<bool, DbError>)
      modifies this
      ensures var found := Found(old(tables), attempt, others);
        && (r.Success? ==> (r.value <==> session in found.sessions))
        && tables == if r.Success? then Step(found, SessionTables.DeleteSession(session)) else found
      ensures r.Success? <==> Reached(attempt, Commits)
      ensures Counts(r.Success?)
    {
      var changes :- WriteWithRetry(SessionTables.DeleteSession(session), attempt, others, true);
      return Success(changes > 0);
    }
  }

  // ---- The check and the commit ----

  predicate TurnTargeted(tables: Tables, gone: set<string>, row: TurnRow) {
    Targeted(tables, gone, row.sessionId) || Targeted(tables, gone, row.activeSessionId)
  }

  /** The statement takes a held turn from its owner. */
  predicate Takes(tables: Tables, s: Statement, turn: string, owner: string) {
    turn in tables.turns
    && match s
       case AcquireLease(id, other, _, now) => id == turn && other != owner && Due(tables.turns[turn], now)
       case ReleaseLease(id, user) => id == turn && user == owner
       case DeleteSession(session) => TurnTargeted(tables, {session}, tables.turns[turn])
       case SweepKind(stale) => TurnTargeted(tables, stale * tables.sessions.Keys, tables.turns[turn])
       case _ => false
  }

  /** A rival takes a turn only once its lease is due; otherwise its owner gives it up
      or a session delete removes it. */
  lemma LossIff(tables: Tables, s: Statement, turn: string, owner: string)
    requires OwnedBy(tables, turn, owner)
    ensures OwnedBy(Step(tables, s), turn, owner) <==> !Takes(tables, s, turn, owner)
  {}

  /** One of the first `n` statements has taken the turn. */
  predicate Taken(tables: Tables, run: seq<Statement>, turn: string, owner: string, n: nat)
    requires n <= |run|
  {
    n > 0
    && (Taken(tables, run, turn, owner, n - 1) || Takes(At(Step, tables, run, n - 1), run[n - 1], turn, owner))
  }

  /** Lost for the old owner, or taken by this statement. */
  lemma OwnedAfter(tables: Tables, s: Statement, turn: string, owner: string)
    requires !(s.AcquireLease? && s.turn == turn && s.owner == owner)
    ensures OwnedBy(Step(tables, s), turn, owner) <==> OwnedBy(tables, turn, owner) && !Takes(tables, s, turn, owner)
  {
    if OwnedBy(tables, turn, owner) {
      LossIff(tables, s, turn, owner);
    } else {
      StepFenced(tables, s, turn, owner);
    }
  }

  lemma {:induction false} OwnedUnlessTaken(tables: Tables, run: seq<Statement>, turn: string, owner: string, n: nat)
    requires n <= |run| && OwnedBy(tables, turn, owner)
    requires forall s :: s in run && s.AcquireLease? && s.turn == turn ==> s.owner != owner
    ensures OwnedBy(At(Step, tables, run, n), turn, owner) <==> !Taken(tables, run, turn, owner, n)
  {
    if n > 0 {
      OwnedUnlessTaken(tables, run, turn, owner, n - 1);
      OwnedAfter(At(Step, tables, run, n - 1), run[n - 1], turn, owner);
    }
  }

  /** What the other writers run until the call is decided. */
  ghost function Between(attempt: nat -> Attempt, others: nat -> seq<Statement>): seq<Statement> {
    Joined(others, Attempts(attempt))
  }

  /** A write that passed its check is decided on tables in which the turn is no longer
      its owner's exactly when a statement of another writer in between has taken it. */
  lemma DecidedWithoutLease(tables: Tables, binding: Binding, attempt: nat -> Attempt, others: nat -> seq<Statement>)
    requires MayWrite(tables, Some(binding))
    requires forall s :: s in Between(attempt, others) && s.AcquireLease? && s.turn == binding.turn ==>
      s.owner != binding.owner
    ensures var run := Between(attempt, others);
      !OwnedBy(Found(tables, attempt, others), binding.turn, binding.owner)
      <==> Taken(tables, run, binding.turn, binding.owner, |run|)
  {
    var run := Between(attempt, others);
    RoundsJoin(Step, tables, others, Attempts(attempt));
    OwnedUnlessTaken(tables, run, binding.turn, binding.owner, |run|);
  }

  lemma RivalAcquires(tables: Tables, turn: string, rival: string, due: int)
    requires turn in tables.turns && Due(tables.turns[turn], due)
    ensures var next := Step(tables, AcquireLease(turn, rival, due + LOGICAL_TURN_LEASE_MS, due));
      OwnedBy(next, turn, rival) && next.messages == tables.messages
  {}

  /** It happens: the check passes, the store is busy until the lease is due, another
      owner acquires the turn, and the old owner's write still lands. */
  lemma LateWriteLands(tables: Tables, binding: Binding, rival: string, message: nat, content: string)
      returns (attempt: nat -> Attempt, others: nat -> seq<Statement>)
    requires MayWrite(tables, Some(binding)) && tables.turns[binding.turn].expiresAt.Some?
    requires rival != binding.owner && message in tables.messages
    ensures var found := Found(tables, attempt, others);
      && Reached(attempt, Commits) && OwnedBy(found, binding.turn, rival)
      && Rows(found, ReplaceContent(message, content, None)) == 1
  {
    var due := tables.turns[binding.turn].expiresAt.value;
    var acquire := AcquireLease(binding.turn, rival, due + LOGICAL_TURN_LEASE_MS, due);
    attempt := i => if i == 0 then Busy else Commits;
    others := i => if i == 1 then [acquire] else [];
    RivalAcquires(tables, binding.turn, rival, due);
    assert Decides(attempt, 1);
    assert AfterRounds(Step, tables, others, 1) == tables;
    assert At(Step, tables, [acquire], 1) == Step(tables, acquire);
  }
}
