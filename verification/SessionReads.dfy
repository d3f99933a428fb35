/** What the session database gives back: what was saved reads back until something names
    it, a released turn keeps its row, and each lane holds what was posted to it. */
module SessionReads {
  import opened Prelude
  import opened Runs
  import opened SessionTables
  import opened SessionLedger
  import opened TurnLeases

  // ---- Turns ----

  /** Only these take rows away from the logical turns. */
  predicate TakesTurns(s: Statement) {
    s.DeleteSession? || s.SweepKind?
  }

  /** Neither takes turns away nor saves this one. */
  predicate KeepsTurn(s: Statement, turn: string) {
    !TakesTurns(s) && !(s.SaveTurn? && s.record.turnId == turn)
  }

  /** The turn's record as a reader finds it, its two columns included. */
  ghost predicate Holds(tables: Tables, record: TurnRecord) {
    && record.turnId in tables.turns
    && var row := tables.turns[record.turnId];
       && row.record == Readable(Some(record.sessionId), Some(record.activeSessionId), record.body)
       && row.sessionId == Some(record.sessionId) && row.activeSessionId == Some(record.activeSessionId)
  }

  /** The record is created, or saved by the lease's owner. */
  ghost predicate Stores(tables: Tables, s: Statement, record: TurnRecord) {
    match s
    case CreateTurn(created) => created == record && record.turnId !in tables.turns
    case SaveTurn(saved, owner) => saved == record && OwnedBy(tables, record.turnId, owner)
    case _ => false
  }

  lemma StoredHolds(tables: Tables, s: Statement, record: TurnRecord)
    requires Stores(tables, s, record)
    ensures Rows(tables, s) == 1 && Holds(Step(tables, s), record)
  {}

  lemma StepHoldsOn(tables: Tables, s: Statement, record: TurnRecord)
    requires Holds(tables, record) && KeepsTurn(s, record.turnId)
    ensures Holds(Step(tables, s), record)
  {}

  /** A record that was created or saved reads back, until it is saved again or a delete or
      a sweep takes turns away. */
  lemma StoredReadsBack(tables: Tables, s: Statement, record: TurnRecord, run: seq<Statement>, n: nat)
    requires Stores(tables, s, record) && n <= |run|
    requires forall i :: 0 <= i < n ==> KeepsTurn(run[i], record.turnId)
    ensures Holds(At(Step, Step(tables, s), run, n), record)
  {
    var keeps := (t: Tables, q: Statement) => KeepsTurn(q, record.turnId);
    var holds := (t: Tables) => Holds(t, record);
    forall t: Tables, q: Statement | holds(t) && keeps(t, q)
      ensures holds(Step(t, q))
    {
      StepHoldsOn(t, q, record);
    }
    StoredHolds(tables, s, record);
    AllAlong(Step, keeps, holds, Step(tables, s), run, n);
  }

  /** Nothing else touches a turn: other rows stay whole, and this one keeps its record. */
  lemma OtherTurnsStay(tables: Tables, s: Statement, turn: string)
    requires !TakesTurns(s) && turn in tables.turns
    ensures turn in Step(tables, s).turns
    ensures !(s.SaveTurn? && s.record.turnId == turn) ==>
      Step(tables, s).turns[turn].record == tables.turns[turn].record
    ensures Step(tables, s).turns[turn] != tables.turns[turn] ==> Names(s, turn)
  {}

  /** The statement is about this turn. */
  predicate Names(s: Statement, turn: string) {
    match s
    case SaveTurn(record, _) => record.turnId == turn
    case AcquireLease(id, _, _, _) => id == turn
    case RenewLease(id, _, _) => id == turn
    case ReleaseLease(id, _) => id == turn
    case _ => false
  }

  /** An acquired or renewed lease has this owner and runs out just then; the record stays. */
  lemma LeaseTerms(tables: Tables, s: Statement)
    requires (s.AcquireLease? || s.RenewLease?) && Rows(tables, s) == 1
    ensures var next := Step(tables, s);
      && s.turn in tables.turns && next.turns.Keys == tables.turns.Keys
      && next.turns[s.turn].owner == Some(s.owner) && next.turns[s.turn].expiresAt == Some(s.expiresAt)
      && next.turns[s.turn].record == tables.turns[s.turn].record
  {}

  /** A release keeps the turn and its record, clears the lease and nothing else, and whoever
      asks next gets the turn, whatever the clock says. */
  lemma ReleaseFrees(tables: Tables, turn: string, owner: string, other: string, expiresAt: int, now: int)
    requires OwnedBy(tables, turn, owner)
    ensures var next := Step(tables, ReleaseLease(turn, owner));
      && Rows(tables, ReleaseLease(turn, owner)) == 1
      && next == tables.(turns := next.turns) && next.turns.Keys == tables.turns.Keys
      && (forall id :: id in tables.turns && id != turn ==> next.turns[id] == tables.turns[id])
      && next.turns[turn].owner.None? && next.turns[turn].expiresAt.None?
      && next.turns[turn].record == tables.turns[turn].record
      && next.turns[turn].sessionId == tables.turns[turn].sessionId
      && next.turns[turn].activeSessionId == tables.turns[turn].activeSessionId
      && Rows(next, AcquireLease(turn, other, expiresAt, now)) == 1
  {}

  // ---- Messages ----

  /** Neither takes messages away nor replaces this one. */
  predicate KeepsMessage(s: Statement, id: nat) {
    && !s.DeleteSession? && !s.SweepKind? && !s.TruncateMessages?
    && !(s.ReplaceContent? && s.message == id)
  }

  ghost predicate HoldsMessage(tables: Tables, id: nat, session: string, content: string) {
    && id < tables.nextMessage && id in tables.messages
    && tables.messages[id].session == session && tables.messages[id].content == content
  }

  /** The message is saved under that id, or its content replaced: unguarded, or while
      nobody holds the turn that guards it. */
  ghost predicate StoresMessage(tables: Tables, s: Statement, id: nat, session: string, content: string) {
    match s
    case SaveMessage(to, text) =>
      to == session && text == content && id == tables.nextMessage && session in tables.sessions
    case ReplaceContent(message, text, guard) =>
      && message == id && text == content && id < tables.nextMessage && id in tables.messages
      && tables.messages[id].session == session
      && (guard.Some? ==> forall owner :: !OwnedBy(tables, guard.value, owner))
    case _ => false
  }

  lemma StoredMessageHolds(tables: Tables, s: Statement, id: nat, session: string, content: string)
    requires StoresMessage(tables, s, id, session, content)
    ensures Rows(tables, s) == 1 && HoldsMessage(Step(tables, s), id, session, content)
  {
    if s.ReplaceContent? && s.unlessHeld.Some? && Held(tables, s.unlessHeld.value) {
      assert OwnedBy(tables, s.unlessHeld.value, tables.turns[s.unlessHeld.value].owner.value);
    }
  }

  lemma StepHoldsMessage(tables: Tables, s: Statement, id: nat, session: string, content: string)
    requires HoldsMessage(tables, id, session, content) && KeepsMessage(s, id)
    ensures HoldsMessage(Step(tables, s), id, session, content)
  {}

  /** What was saved or put in a message's place reads back, until it is replaced or a
      delete, a sweep or a truncation takes messages away. */
  lemma MessageReadsBack(tables: Tables, s: Statement, id: nat, session: string, content: string, run: seq<Statement>,
      n: nat)
    requires StoresMessage(tables, s, id, session, content) && n <= |run|
    requires forall i :: 0 <= i < n ==> KeepsMessage(run[i], id)
    ensures HoldsMessage(At(Step, Step(tables, s), run, n), id, session, content)
  {
    var keeps := (t: Tables, q: Statement) => KeepsMessage(q, id);
    var holds := (t: Tables) => HoldsMessage(t, id, session, content);
    forall t: Tables, q: Statement | holds(t) && keeps(t, q)
      ensures holds(Step(t, q))
    {
      StepHoldsMessage(t, q, id, session, content);
    }
    StoredMessageHolds(tables, s, id, session, content);
    AllAlong(Step, keeps, holds, Step(tables, s), run, n);
  }

  // ---- The lanes ----

  /** Tokens, cached tokens and cost. */
  datatype Lane = Lane(input: nat, output: nat, creation: nat, read: nat, cost: real)

  const NOTHING := Lane(0, 0, 0, 0, 0.0)

  function Count(n: Option<nat>): nat {
    match n
    case Some(tokens) => tokens
    case None => 0
  }

  /** An estimate counts if it is complete and a finite amount of at least nothing. */
  function Priced(e: Estimate): real {
    match e.amount
    case Some(Finite(x)) => if e.complete && x >= 0.0 then x else 0.0
    case _ => 0.0
  }

  function ChatOf(row: SessionRow): Lane {
    Lane(row.inputTokens, row.outputTokens, row.cacheCreation, row.cacheRead, row.cost)
  }

  function CompactionOf(row: SessionRow): Lane {
    Lane(row.compactionInput, row.compactionOutput, 0, 0, row.compactionCost)
  }

  /** What a statement posts to a session's chat. */
  function ChatPost(s: Statement, session: string): Lane {
    match s
    case RecordUsage(to, usage, estimate) =>
      if to != session then NOTHING
      else
        Lane(Count(usage.input), Count(usage.output), Count(usage.cacheCreation), Count(usage.cacheRead),
          Priced(estimate))
    case _ => NOTHING
  }

  /** And to its compactions, whose cached tokens have no total. */
  function CompactionPost(s: Statement, session: string): Lane {
    match s
    case RecordCompaction(to, usage, estimate) =>
      if to != session then NOTHING
      else Lane(Count(usage.input), Count(usage.output), 0, 0, Priced(estimate))
    case _ => NOTHING
  }

  function Both(a: Lane, b: Lane): Lane {
    Lane(a.input + b.input, a.output + b.output, a.creation + b.creation, a.read + b.read, a.cost + b.cost)
  }

  /** What has been posted to a session since it was last created. */
  ghost function Posted(run: seq<Statement>, session: string, post: (Statement, string) -> Lane, n: nat): Lane
    requires n <= |run|
  {
    if n == 0 || session !in At(Step, EMPTY, run, n - 1).sessions || session !in At(Step, EMPTY, run, n).sessions then
      NOTHING
    else Both(Posted(run, session, post, n - 1), post(run[n - 1], session))
  }

  lemma SameCounts(usage: Usage, estimate: Estimate)
    ensures OrZero(usage.input) == Count(usage.input) && OrZero(usage.output) == Count(usage.output)
    ensures OrZero(usage.cacheRead) == Count(usage.cacheRead)
    ensures OrZero(usage.cacheCreation) == Count(usage.cacheCreation)
    ensures KnownAmount(estimate) == Priced(estimate)
  {}

  lemma UsagePosts(tables: Tables, to: string, usage: Usage, estimate: Estimate, session: string)
    requires session in tables.sessions
    ensures var row := After(tables, AddUsage(tables, to, usage, estimate)).sessions[session];
      && ChatOf(row) == Both(ChatOf(tables.sessions[session]), ChatPost(RecordUsage(to, usage, estimate), session))
      && CompactionOf(row) == CompactionOf(tables.sessions[session])
  {
    SameCounts(usage, estimate);
  }

  lemma CompactionPosts(tables: Tables, to: string, usage: Usage, estimate: Estimate, session: string)
    requires session in tables.sessions
    ensures var row := After(tables, AddCompaction(tables, to, usage, estimate)).sessions[session];
      && CompactionOf(row)
        == Both(CompactionOf(tables.sessions[session]), CompactionPost(RecordCompaction(to, usage, estimate), session))
      && ChatOf(row) == ChatOf(tables.sessions[session])
  {
    SameCounts(usage, estimate);
  }

  lemma OthersPostNothing(tables: Tables, s: Statement, session: string)
    requires session in tables.sessions && session in Step(tables, s).sessions
    requires !s.RecordUsage? && !s.RecordCompaction?
    ensures var row := Step(tables, s).sessions[session];
      ChatOf(row) == ChatOf(tables.sessions[session]) && CompactionOf(row) == CompactionOf(tables.sessions[session])
  {}

  lemma PlusNothing(a: Lane)
    ensures Both(a, NOTHING) == a
  {}

  lemma StepPosts(tables: Tables, s: Statement, session: string)
    requires session in tables.sessions && session in Step(tables, s).sessions
    ensures ChatOf(Step(tables, s).sessions[session])
      == Both(ChatOf(tables.sessions[session]), ChatPost(s, session))
    ensures CompactionOf(Step(tables, s).sessions[session])
      == Both(CompactionOf(tables.sessions[session]), CompactionPost(s, session))
  {
    PlusNothing(ChatOf(tables.sessions[session]));
    PlusNothing(CompactionOf(tables.sessions[session]));
    match s
    case RecordUsage(to, usage, estimate) => UsagePosts(tables, to, usage, estimate, session);
    case RecordCompaction(to, usage, estimate) => CompactionPosts(tables, to, usage, estimate, session);
    case _ => OthersPostNothing(tables, s, session);
  }

  /** Each accepted post leaves its receipt last, and the earlier ones as they were; a
      compaction's price that does not count is not kept. */
  lemma ReceiptReadsBack(tables: Tables, session: string, usage: Usage, estimate: Estimate)
    requires session in tables.sessions
    ensures Step(tables, RecordUsage(session, usage, estimate)).receipts
      == tables.receipts + [Receipt(session, usage, estimate)]
    ensures var kept :=
        if estimate.complete && estimate.amount.Some? && estimate.amount.value.Finite?
          && estimate.amount.value.value >= 0.0 then estimate
        else Estimate(None, false, estimate.provenance);
      Step(tables, RecordCompaction(session, usage, estimate)).receipts
      == tables.receipts + [Receipt(session, usage, kept)]
  {}

  lemma CreatedEmpty(tables: Tables, s: Statement, session: string)
    requires session !in tables.sessions && session in Step(tables, s).sessions
    ensures ChatOf(Step(tables, s).sessions[session]) == NOTHING
    ensures CompactionOf(Step(tables, s).sessions[session]) == NOTHING
    ensures s.CreateSession? && s.session == session && Step(tables, s).sessions[session].parent == s.parent
  {}

  /** Over every run, a session's chat totals are what its usage records say, and its
      compaction totals what its compactions say, lane by lane, since its creation. */
  lemma {:induction false} LanesAdd(run: seq<Statement>, session: string, n: nat)
    requires n <= |run| && session in At(Step, EMPTY, run, n).sessions
    ensures var row := At(Step, EMPTY, run, n).sessions[session];
      ChatOf(row) == Posted(run, session, ChatPost, n) && CompactionOf(row) == Posted(run, session, CompactionPost, n)
  {
    assert n > 0;
    var before := At(Step, EMPTY, run, n - 1);
    if session in before.sessions {
      LanesAdd(run, session, n - 1);
      StepPosts(before, run[n - 1], session);
    } else {
      CreatedEmpty(before, run[n - 1], session);
    }
  }

  /** So the review sweep takes a stale session for a phantom exactly when no usage record
      since its creation gave it a token and no message is its. */
  lemma PhantomIff(run: seq<Statement>, session: string, n: nat)
    requires n <= |run| && session in At(Step, EMPTY, run, n).sessions
    ensures var tables := At(Step, EMPTY, run, n);
      IsPhantom(tables, session) <==>
        && Posted(run, session, ChatPost, n).input == 0 && Posted(run, session, ChatPost, n).output == 0
        && forall id :: id in tables.messages ==> tables.messages[id].session != session
  {
    LanesAdd(run, session, n);
  }

  // ---- Row counts ----

  /** A statement reports as many rows as a reader finds more of, ... */
  lemma OneMoreTurn(tables: Tables, record: TurnRecord)
    ensures var s := CreateTurn(record);
      Rows(tables, s) == |Step(tables, s).turns| - |tables.turns|
  {
    Grown(tables.turns.Keys, Step(tables, CreateTurn(record)).turns.Keys, record.turnId);
  }

  lemma OneMoreSession(tables: Tables, session: string, parent: Option<string>)
    ensures var s := CreateSession(session, parent);
      Rows(tables, s) == |Step(tables, s).sessions| - |tables.sessions|
  {
    Grown(tables.sessions.Keys, Step(tables, CreateSession(session, parent)).sessions.Keys, session);
  }

  lemma OneMoreMessage(tables: Tables, session: string, content: string)
    requires References(tables)
    ensures var s := SaveMessage(session, content);
      Rows(tables, s) == |Step(tables, s).messages| - |tables.messages|
        == Step(tables, s).nextMessage - tables.nextMessage
  {
    Grown(tables.messages.Keys, Step(tables, SaveMessage(session, content)).messages.Keys, tables.nextMessage);
  }

  lemma OneMoreReceipt(tables: Tables, session: string, usage: Usage, estimate: Estimate)
    ensures var s := RecordUsage(session, usage, estimate);
      Rows(tables, s) == |Step(tables, s).receipts| - |tables.receipts|
    ensures var s := RecordCompaction(session, usage, estimate);
      Rows(tables, s) == |Step(tables, s).receipts| - |tables.receipts|
  {}

  lemma OneMoreChild(tables: Tables, compacted: string, child: string)
    ensures var s := RecordLineage(compacted, child);
      Rows(tables, s) == |Step(tables, s).lineage| - |tables.lineage|
  {
    Grown(tables.lineage, Step(tables, RecordLineage(compacted, child)).lineage, (compacted, child));
  }

  /** ... or fewer; ... */
  lemma FewerMessages(tables: Tables, session: string, keep: real)
    ensures var s := TruncateMessages(session, keep);
      Rows(tables, s) == |tables.messages| - |Step(tables, s).messages|
  {
    Shrunk(tables.messages.Keys, Step(tables, TruncateMessages(session, keep)).messages.Keys);
  }

  lemma OneSessionLess(tables: Tables, session: string)
    ensures var s := DeleteSession(session);
      Rows(tables, s) == |tables.sessions| - |Step(tables, s).sessions|
  {
    var next := Step(tables, DeleteSession(session));
    Shrunk(tables.sessions.Keys, next.sessions.Keys);
    assert tables.sessions.Keys - next.sessions.Keys == if session in tables.sessions then {session} else {};
  }

  lemma FewerSessions(tables: Tables, stale: set<string>)
    ensures Rows(tables, SweepKind(stale)) == |tables.sessions| - |Step(tables, SweepKind(stale)).sessions|
    ensures Rows(tables, SweepPhantoms(stale)) == |tables.sessions| - |Step(tables, SweepPhantoms(stale)).sessions|
  {
    SweepDrops(tables, stale);
    PhantomsDrop(tables, stale);
  }

  lemma SweepDrops(tables: Tables, stale: set<string>)
    ensures Rows(tables, SweepKind(stale)) == |tables.sessions| - |Step(tables, SweepKind(stale)).sessions|
  {
    RemoveDrops(tables, stale * tables.sessions.Keys);
  }

  lemma RemoveLeaves(tables: Tables, gone: set<string>)
    ensures Remove(tables, gone).sessions.Keys == tables.sessions.Keys - gone
  {}

  lemma RemoveDrops(tables: Tables, gone: set<string>)
    requires gone <= tables.sessions.Keys
    ensures |gone| == |tables.sessions| - |Remove(tables, gone).sessions|
  {
    RemoveLeaves(tables, gone);
    LeftOver(tables.sessions.Keys, gone);
  }

  lemma LeftOver<T>(all: set<T>, gone: set<T>)
    requires gone <= all
    ensures |all - gone| == |all| - |gone|
  {
    assert all == (all - gone) + gone;
  }

  lemma PhantomsDrop(tables: Tables, stale: set<string>)
    ensures Rows(tables, SweepPhantoms(stale)) == |tables.sessions| - |Step(tables, SweepPhantoms(stale)).sessions|
  {
    var next := Step(tables, SweepPhantoms(stale));
    Shrunk(tables.sessions.Keys, next.sessions.Keys);
    if !Apply(tables, SweepPhantoms(stale)).Violates? {
      assert tables.sessions.Keys - next.sessions.Keys == set id | id in stale && Swept(tables, stale, id);
    }
  }

  /** ... and an upsert into the journal that changes none leaves everything as it was, while
      otherwise its row reads back. */
  lemma UpsertTells(tables: Tables, key: ToolKey, row: ToolRow)
    ensures key.session in tables.sessions && key.message in tables.messages ==>
      (Rows(tables, SaveTool(key, row)) == 0 <==> IsCompleted(tables, key) && row.state != Completed)
    ensures var next := Step(tables, SaveTool(key, row));
      && (Rows(tables, SaveTool(key, row)) == 0 ==> next == tables)
      && (Rows(tables, SaveTool(key, row)) != 0 ==>
            && Rows(tables, SaveTool(key, row)) == 1
            && next == tables.(tools := next.tools) && key in next.tools && next.tools[key] == row
            && forall k :: k != key ==>
                 (k in next.tools <==> k in tables.tools)
                 && (k in tables.tools ==> next.tools[k] == tables.tools[k]))
  {}

  lemma Grown<T>(before: set<T>, next: set<T>, x: T)
    requires next == before || next == before + {x}
    ensures |next| - |before| == if x in next && x !in before then 1 else 0
  {
    if x in before {
      assert before + {x} == before;
    }
  }

  lemma Shrunk<T>(before: set<T>, next: set<T>)
    requires next <= before
    ensures |before| - |next| == |before - next|
  {
    assert before == next + (before - next);
  }
}
