/** Lease exclusion and fencing over every interleaving of statements. */
module TurnLeases {
  import opened Prelude
  import opened Runs
  import opened SessionTables

  /** A statement and the clock reading of its caller. */
  datatype Timed = Timed(statement: Statement, time: int)

  /** Callers ask for one lease length from their own clock. */
  ghost predicate AsksOneLease(t: Timed) {
    match t.statement
    case AcquireLease(_, _, expiresAt, now) => now == t.time && expiresAt == t.time + LOGICAL_TURN_LEASE_MS
    case RenewLease(_, _, expiresAt) => expiresAt == t.time + LOGICAL_TURN_LEASE_MS
    case _ => true
  }

  function Perform(tables: Tables, t: Timed): Tables {
    Step(tables, t.statement)
  }

  /** The tables before the statement at `i`. */
  function Before(tables: Tables, run: seq<Timed>, i: nat): Tables
    requires i <= |run|
  {
    At(Perform, tables, run, i)
  }

  ghost predicate HeldUntil(tables: Tables, turn: string, owner: string, until: int) {
    && turn in tables.turns && tables.turns[turn].owner == Some(owner)
    && tables.turns[turn].expiresAt.Some? && tables.turns[turn].expiresAt.value >= until
  }

  /** The statement gives the turn up: its owner releases it or its row is deleted. */
  ghost predicate GivesUp(tables: Tables, s: Statement, turn: string, owner: string) {
    s == ReleaseLease(turn, owner) || turn !in Step(tables, s).turns
  }

  /** Another owner's attempt to acquire the turn. */
  predicate IsRival(s: Statement, turn: string, owner: string) {
    s.AcquireLease? && s.turn == turn && s.owner != owner
  }

  predicate OwnedBy(tables: Tables, turn: string, owner: string) {
    turn in tables.turns && tables.turns[turn].owner == Some(owner)
  }

  /** The owner acquires or renews the turn here. */
  ghost predicate Secures(tables: Tables, t: Timed, turn: string, owner: string) {
    && Rows(tables, t.statement) == 1
    && match t.statement
       case AcquireLease(id, user, _, _) => id == turn && user == owner
       case RenewLease(id, user, _) => id == turn && user == owner
       case _ => false
  }

  /** A successful acquire or renewal holds the turn for one lease length. */
  lemma SecuredHolds(tables: Tables, t: Timed, turn: string, owner: string)
    requires AsksOneLease(t) && Secures(tables, t, turn, owner)
    ensures HeldUntil(Perform(tables, t), turn, owner, t.time + LOGICAL_TURN_LEASE_MS)
  {}

  lemma StepHolds(tables: Tables, t: Timed, turn: string, owner: string, until: int)
    requires HeldUntil(tables, turn, owner, until) && AsksOneLease(t)
    requires until - LOGICAL_TURN_LEASE_MS <= t.time < until && !GivesUp(tables, t.statement, turn, owner)
    ensures HeldUntil(Step(tables, t.statement), turn, owner, until)
    ensures IsRival(t.statement, turn, owner) ==> Rows(tables, t.statement) == 0
  {
    match t.statement
    case AcquireLease(other, _, _, _) =>
    case RenewLease(other, _, _) =>
    case _ =>
  }

  /** Nothing given up, and the clock within one lease length from `start`. */
  ghost predicate WithinLease(tables: Tables, t: Timed, turn: string, owner: string, start: int) {
    && AsksOneLease(t) && start <= t.time < start + LOGICAL_TURN_LEASE_MS
    && !GivesUp(tables, t.statement, turn, owner)
  }

  /** From a successful acquire or renewal until its lease runs out or is given up,
      whatever anyone else does, the turn stays held and no other owner acquires it. */
  lemma Exclusion(tables: Tables, run: seq<Timed>, turn: string, owner: string, i: nat, n: nat)
    requires i < n <= |run| && AsksOneLease(run[i]) && Secures(Before(tables, run, i), run[i], turn, owner)
    requires forall j :: i < j < n ==> WithinLease(Before(tables, run, j), run[j], turn, owner, run[i].time)
    ensures forall j :: i < j <= n ==>
      HeldUntil(Before(tables, run, j), turn, owner, run[i].time + LOGICAL_TURN_LEASE_MS)
    ensures forall j :: i < j < n && IsRival(run[j].statement, turn, owner) ==>
      Rows(Before(tables, run, j), run[j].statement) == 0
  {
    var until := run[i].time + LOGICAL_TURN_LEASE_MS;
    var held := (s: Tables) => HeldUntil(s, turn, owner, until);
    var within := (s: Tables, t: Timed) => WithinLease(s, t, turn, owner, run[i].time);
    forall s: Tables, t: Timed | held(s) && within(s, t)
      ensures held(Perform(s, t))
    {
      StepHolds(s, t, turn, owner, until);
    }
    SecuredHolds(Before(tables, run, i), run[i], turn, owner);
    AllFrom(Perform, within, held, tables, run, i + 1, n);
    forall j | i < j < n && IsRival(run[j].statement, turn, owner)
      ensures Rows(Before(tables, run, j), run[j].statement) == 0
    {
      StepHolds(Before(tables, run, j), run[j], turn, owner, until);
    }
  }

  // ---- Fencing ----

  /** A statement by which `owner` uses the lease. */
  predicate UsesLease(s: Statement, turn: string, owner: string) {
    match s
    case SaveTurn(record, user) => record.turnId == turn && user == owner
    case RenewLease(id, user, _) => id == turn && user == owner
    case ReleaseLease(id, user) => id == turn && user == owner
    case _ => false
  }

  predicate Acquires(tables: Tables, s: Statement, turn: string, owner: string) {
    s.AcquireLease? && s.turn == turn && s.owner == owner && Rows(tables, s) == 1
  }

  lemma StepFenced(tables: Tables, s: Statement, turn: string, owner: string)
    requires !OwnedBy(tables, turn, owner) && !Acquires(tables, s, turn, owner)
    ensures !OwnedBy(Step(tables, s), turn, owner)
    ensures UsesLease(s, turn, owner) ==> Rows(tables, s) == 0 && Step(tables, s) == tables
  {
    match s
    case AcquireLease(other, _, _, _) =>
    case RenewLease(other, _, _) =>
    case DeleteSession(_) =>
    case _ =>
  }

  /** Once the old owner has lost the turn, however it was lost, nothing it saves, renews
      or releases takes effect until it acquires again. */
  lemma StaysFenced(tables: Tables, run: seq<Timed>, turn: string, owner: string, i: nat, n: nat)
    requires i <= n <= |run| && !OwnedBy(Before(tables, run, i), turn, owner)
    requires forall j :: i <= j < n ==> !Acquires(Before(tables, run, j), run[j].statement, turn, owner)
    ensures forall j :: i <= j <= n ==> !OwnedBy(Before(tables, run, j), turn, owner)
    ensures forall j :: i <= j < n && UsesLease(run[j].statement, turn, owner) ==>
      Rows(Before(tables, run, j), run[j].statement) == 0
      && Perform(Before(tables, run, j), run[j]) == Before(tables, run, j)
  {
    var lost := (s: Tables) => !OwnedBy(s, turn, owner);
    var others := (s: Tables, t: Timed) => !Acquires(s, t.statement, turn, owner);
    forall s: Tables, t: Timed | lost(s) && others(s, t)
      ensures lost(Perform(s, t))
    {
      StepFenced(s, t.statement, turn, owner);
    }
    AllFrom(Perform, others, lost, tables, run, i, n);
    forall j | i <= j < n && UsesLease(run[j].statement, turn, owner)
      ensures Rows(Before(tables, run, j), run[j].statement) == 0
      ensures Perform(Before(tables, run, j), run[j]) == Before(tables, run, j)
    {
      StepFenced(Before(tables, run, j), run[j].statement, turn, owner);
    }
  }

  lemma AcquisitionFences(tables: Tables, s: Statement, turn: string, owner: string, other: string)
    requires Acquires(tables, s, turn, other) && other != owner
    ensures OwnedBy(Step(tables, s), turn, other) && !OwnedBy(Step(tables, s), turn, owner)
  {}

  /** From another owner's successful acquisition on, the old owner is shut out like that. */
  lemma Fencing(tables: Tables, run: seq<Timed>, turn: string, owner: string, rival: string, i: nat, n: nat)
    requires i < n <= |run| && rival != owner && Acquires(Before(tables, run, i), run[i].statement, turn, rival)
    requires forall j :: i < j < n ==> !Acquires(Before(tables, run, j), run[j].statement, turn, owner)
    ensures forall j :: i < j <= n ==> !OwnedBy(Before(tables, run, j), turn, owner)
    ensures forall j :: i < j < n && UsesLease(run[j].statement, turn, owner) ==>
      Rows(Before(tables, run, j), run[j].statement) == 0
      && Perform(Before(tables, run, j), run[j]) == Before(tables, run, j)
  {
    AcquisitionFences(Before(tables, run, i), run[i].statement, turn, owner, rival);
    StaysFenced(tables, run, turn, owner, i + 1, n);
  }

  /** Free, the caller's own, or due by the caller's clock. */
  predicate Free(tables: Tables, turn: string, owner: string, now: int)
    requires turn in tables.turns
  {
    !Held(tables, turn) || OwnedBy(tables, turn, owner) || Due(tables.turns[turn], now)
  }

  /** Acquiring succeeds exactly when the row exists and its lease is free, the
      caller's own, or due; the turn then has this owner and no other. */
  lemma AcquireIff(tables: Tables, turn: string, owner: string, expiresAt: int, now: int)
    ensures Rows(tables, AcquireLease(turn, owner, expiresAt, now)) == 1 <==>
      turn in tables.turns && Free(tables, turn, owner, now)
    ensures Rows(tables, AcquireLease(turn, owner, expiresAt, now)) == 1 ==>
      forall other :: OwnedBy(Step(tables, AcquireLease(turn, owner, expiresAt, now)), turn, other) <==> other == owner
  {}

  /** A replacement that names a logical turn commits only while that turn's lease
      is free; it is then the only thing that changes. */
  lemma ReplaceOnlyWhenFree(tables: Tables, message: nat, content: string, turn: string)
    ensures Rows(tables, ReplaceContent(message, content, Some(turn))) == 1 <==>
      message in tables.messages && forall owner :: !OwnedBy(tables, turn, owner)
    ensures var next := Step(tables, ReplaceContent(message, content, Some(turn)));
      if Rows(tables, ReplaceContent(message, content, Some(turn))) == 1
      then next == tables.(messages := next.messages) && message in next.messages
        && next.messages == tables.messages[message := MessageRow(tables.messages[message].session, content)]
      else next == tables
  {
    if Held(tables, turn) {
      assert OwnedBy(tables, turn, tables.turns[turn].owner.value);
    }
  }
}
