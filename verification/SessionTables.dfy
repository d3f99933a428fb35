/** The session database as tables, and its statements as functions on them. */
module SessionTables {
  import opened Prelude

  const LOGICAL_TURN_LEASE_MS: int := 30_000

  // ---- Rows ----

  /** A logical turn as its writers hold it. */
  datatype TurnRecord = TurnRecord(turnId: string, sessionId: string, activeSessionId: string, body: string)

  /** The stored text of a record: JSON with these two fields, or not readable. */
  datatype Stored = Readable(sessionId: Option<string>, activeSessionId: Option<string>, body: string) | Unreadable

  function Serialize(record: TurnRecord): Stored {
    Readable(Some(record.sessionId), Some(record.activeSessionId), record.body)
  }

  /** A row of logical_turns: the record, its two indexed copies, and the lease. */
  datatype TurnRow = TurnRow(record: Stored, sessionId: Option<string>, activeSessionId: Option<string>,
    owner: Option<string>, expiresAt: Option<int>)

  /** A number as the host computes it: an amount, or no finite number at all. */
  datatype Amount = Finite(value: real) | NotFinite

  datatype Estimate = Estimate(amount: Option<Amount>, complete: bool, provenance: string)

  datatype Usage = Usage(input: Option<nat>, output: Option<nat>, cacheCreation: Option<nat>, cacheRead: Option<nat>)

  datatype SessionRow = SessionRow(parent: Option<string>, inputTokens: nat, outputTokens: nat, cacheCreation: nat,
    cacheRead: nat, cost: real, compactionInput: nat, compactionOutput: nat, compactionCost: real, costComplete: bool)

  datatype MessageRow = MessageRow(session: string, content: string)

  datatype ToolState = Started | Completed | Interrupted | Unknown

  datatype ToolKey = ToolKey(session: string, message: nat, toolUse: string)

  datatype ToolRow = ToolRow(state: ToolState, receipt: string)

  /** A row of usage_estimates. */
  datatype Receipt = Receipt(session: string, usage: Usage, estimate: Estimate)

  datatype Tables = Tables(
    turns: map<string, TurnRow>,
    sessions: map<string, SessionRow>,
    messages: map<nat, MessageRow>,
    nextMessage: nat,
    lineage: set<(string, string)>,
    tools: map<ToolKey, ToolRow>,
    receipts: seq<Receipt>)

  const EMPTY := Tables(map[], map[], map[], 0, {}, map[], [])

  // ---- Statements ----

  datatype Statement =
    | CreateTurn(record: TurnRecord)
    | SaveTurn(record: TurnRecord, owner: string)
    | AcquireLease(turn: string, owner: string, expiresAt: int, now: int)
    | RenewLease(turn: string, owner: string, expiresAt: int)
    | ReleaseLease(turn: string, owner: string)
    | ReplaceContent(message: nat, content: string, unlessHeld: Option<string>)
    | SaveMessage(session: string, content: string)
    | TruncateMessages(session: string, keep: real)
    | SaveTool(key: ToolKey, row: ToolRow)
    | RecordUsage(session: string, usage: Usage, estimate: Estimate)
    | RecordCompaction(session: string, usage: Usage, estimate: Estimate)
    | RecordLineage(compacted: string, child: string)
    | CreateSession(session: string, parent: Option<string>)
    | DeleteSession(session: string)
    | SweepKind(stale: set<string>)
    | SweepPhantoms(stale: set<string>)

  /** What a statement does: how many rows it changed, or a constraint it broke. */
  datatype Effect = Changed(tables: Tables, rows: nat) | Violates

  /** The tables afterwards: a broken constraint rolls the statement back. */
  function After(tables: Tables, effect: Effect): Tables {
    if effect.Violates? then tables else effect.tables
  }

  predicate Known(e: Estimate) {
    e.complete && e.amount.Some? && e.amount.value.Finite? && e.amount.value.value >= 0.0
  }

  function KnownAmount(e: Estimate): real {
    if Known(e) then e.amount.value.value else 0.0
  }

  /** What the compaction lane stores of an estimate: unknown amounts are dropped. */
  function Recorded(e: Estimate): Estimate {
    if Known(e) then e else Estimate(None, false, e.provenance)
  }

  function OrZero(n: Option<nat>): nat {
    if n.Some? then n.value else 0
  }

  function Save(tables: Tables, record: TurnRecord, owner: string): Effect {
    if record.turnId in tables.turns && tables.turns[record.turnId].owner == Some(owner) then
      var row := tables.turns[record.turnId].(record := Serialize(record), sessionId := Some(record.sessionId),
        activeSessionId := Some(record.activeSessionId));
      Changed(tables.(turns := tables.turns[record.turnId := row]), 1)
    else Changed(tables, 0)
  }

  predicate Due(row: TurnRow, now: int) {
    row.expiresAt.Some? && row.expiresAt.value <= now
  }

  function Acquire(tables: Tables, turn: string, owner: string, expiresAt: int, now: int): Effect {
    if turn in tables.turns
       && var row := tables.turns[turn]; row.owner.None? || row.owner == Some(owner) || Due(row, now) then
      Changed(tables.(turns := tables.turns[turn := tables.turns[turn].(owner := Some(owner),
        expiresAt := Some(expiresAt))]), 1)
    else Changed(tables, 0)
  }

  /** The caller's clock is one lease length before the new expiry. */
  function Renew(tables: Tables, turn: string, owner: string, expiresAt: int): Effect {
    if turn in tables.turns
       && var row := tables.turns[turn];
          row.owner == Some(owner) && row.expiresAt.Some?
            && row.expiresAt.value > expiresAt - LOGICAL_TURN_LEASE_MS then
      Changed(tables.(turns := tables.turns[turn := tables.turns[turn].(owner := Some(owner),
        expiresAt := Some(expiresAt))]), 1)
    else Changed(tables, 0)
  }

  function Release(tables: Tables, turn: string, owner: string): Effect {
    if turn in tables.turns && tables.turns[turn].owner == Some(owner) then
      Changed(tables.(turns := tables.turns[turn := tables.turns[turn].(owner := None, expiresAt := None)]), 1)
    else Changed(tables, 0)
  }

  predicate Held(tables: Tables, turn: string) {
    turn in tables.turns && tables.turns[turn].owner.Some?
  }

  function Replace(tables: Tables, message: nat, content: string, unlessHeld: Option<string>): Effect {
    if message in tables.messages && !(unlessHeld.Some? && Held(tables, unlessHeld.value)) then
      Changed(tables.(messages := tables.messages[message := tables.messages[message].(content := content)]), 1)
    else Changed(tables, 0)
  }

  /** The journal's upsert: an existing row gives way unless it is completed. */
  function UpsertTool(tables: Tables, key: ToolKey, row: ToolRow): Effect {
    if key.session !in tables.sessions || key.message !in tables.messages then Violates
    else if key in tables.tools && tables.tools[key].state == Completed
      && row.state != Completed then Changed(tables, 0)
    else Changed(tables.(tools := tables.tools[key := row]), 1)
  }

  /** One transaction: the totals, then the receipt, whose session must exist. */
  function AddUsage(tables: Tables, session: string, usage: Usage, estimate: Estimate): Effect {
    if session !in tables.sessions then Violates else
    var row := tables.sessions[session];
    var total := row.(inputTokens := row.inputTokens + OrZero(usage.input),
      outputTokens := row.outputTokens + OrZero(usage.output),
      cacheCreation := row.cacheCreation + OrZero(usage.cacheCreation),
      cacheRead := row.cacheRead + OrZero(usage.cacheRead),
      cost := row.cost + KnownAmount(estimate),
      costComplete := row.costComplete && Known(estimate));
    Changed(tables.(sessions := tables.sessions[session := total],
      receipts := tables.receipts + [Receipt(session, usage, estimate)]), 1)
  }

  function AddCompaction(tables: Tables, session: string, usage: Usage, estimate: Estimate): Effect {
    if session !in tables.sessions then Violates else
    var row := tables.sessions[session];
    var total := row.(compactionInput := row.compactionInput + OrZero(usage.input),
      compactionOutput := row.compactionOutput + OrZero(usage.output),
      compactionCost := row.compactionCost + KnownAmount(estimate),
      costComplete := row.costComplete && Known(estimate));
    Changed(tables.(sessions := tables.sessions[session := total],
      receipts := tables.receipts + [Receipt(session, usage, Recorded(estimate))]), 1)
  }

  function NewSession(parent: Option<string>): SessionRow {
    SessionRow(parent, 0, 0, 0, 0, 0.0, 0, 0, 0.0, true)
  }

  // ---- Truncating a transcript ----

  /** How many messages a truncation keeps: the argument rounded down, never negative. */
  function Retained(keep: real): nat {
    if keep > 0.0 then keep.Floor else 0
  }

  /** How many of the session's messages have an id below `id`. */
  function Earlier(messages: map<nat, MessageRow>, session: string, id: nat): nat {
    if id == 0 then 0
    else
      Earlier(messages, session, id - 1)
      + (if id - 1 in messages && messages[id - 1].session == session then 1 else 0)
  }

  /** The session's messages in ascending order of their ids, from the limit on. */
  predicate CutOff(messages: map<nat, MessageRow>, session: string, keep: real, id: nat) {
    id in messages && messages[id].session == session && Earlier(messages, session, id) >= Retained(keep)
  }

  /** Drops them, and the database drops the journal rows that refer to them. */
  function Truncate(tables: Tables, session: string, keep: real): Effect {
    var messages := map id | id in tables.messages && !CutOff(tables.messages, session, keep, id) ::
      tables.messages[id];
    var tools := map key | key in tables.tools && key.message in messages :: tables.tools[key];
    Changed(tables.(messages := messages, tools := tools), |tables.messages.Keys - messages.Keys|)
  }

  // ---- Deleting sessions ----

  /** One of the sessions, or a direct compacted child of one. */
  predicate Targeted(tables: Tables, gone: set<string>, id: Option<string>) {
    id.Some? && (id.value in gone || exists parent :: parent in gone && (parent, id.value) in tables.lineage)
  }

  function Without(receipts: seq<Receipt>, gone: set<string>): seq<Receipt> {
    if receipts == [] then []
    else if receipts[0].session in gone then Without(receipts[1..], gone)
    else [receipts[0]] + Without(receipts[1..], gone)
  }

  /** One transaction over every table that can name these sessions, but for the parent
      pointers of others. */
  function Remove(tables: Tables, gone: set<string>): Tables {
    var turns := map id | id in tables.turns && !Targeted(tables, gone, tables.turns[id].sessionId)
      && !Targeted(tables, gone, tables.turns[id].activeSessionId) :: tables.turns[id];
    var sessions := map id | id in tables.sessions && id !in gone :: tables.sessions[id];
    var messages := map id | id in tables.messages && tables.messages[id].session !in gone :: tables.messages[id];
    var lineage := set pair | pair in tables.lineage && pair.0 !in gone && pair.1 !in gone;
    var tools := map key | key in tables.tools && key.session !in gone && key.message in messages :: tables.tools[key];
    Tables(turns, sessions, messages, tables.nextMessage, lineage, tools, Without(tables.receipts, gone))
  }

  function Detach(row: SessionRow, session: string): SessionRow {
    if row.parent == Some(session) then row.(parent := None) else row
  }

  function DetachAll(tables: Tables, session: string): Tables {
    tables.(sessions := map id | id in tables.sessions :: Detach(tables.sessions[id], session))
  }

  /** A deleted session's children lose their parent pointer first. */
  function Delete(tables: Tables, session: string): Effect {
    Changed(Remove(DetachAll(tables, session), {session}), if session in tables.sessions then 1 else 0)
  }

  /** The sweeps by kind: which sessions are stale is read off their metadata and age. */
  function Sweep(tables: Tables, stale: set<string>): Effect {
    var gone := stale * tables.sessions.Keys;
    Changed(Remove(tables, gone), |gone|)
  }

  predicate HasMessage(tables: Tables, session: string) {
    exists id :: id in tables.messages && tables.messages[id].session == session
  }

  /** A review's session that never got a token or a message. */
  predicate IsPhantom(tables: Tables, session: string) {
    session in tables.sessions && tables.sessions[session].inputTokens + tables.sessions[session].outputTokens == 0
    && !HasMessage(tables, session)
  }

  predicate Swept(tables: Tables, stale: set<string>, session: string) {
    session in stale && IsPhantom(tables, session)
  }

  /** This sweep deletes session rows only, and the database what cascades from them; a
      lineage row that refers to one makes it fail. */
  function DropPhantoms(tables: Tables, stale: set<string>): Effect {
    var gone := set id | id in stale && Swept(tables, stale, id);
    if exists pair :: pair in tables.lineage && (pair.0 in gone || pair.1 in gone) then Violates else
    var sessions := map id | id in tables.sessions && id !in gone :: tables.sessions[id];
    var tools := map key | key in tables.tools && key.session !in gone :: tables.tools[key];
    Changed(tables.(sessions := sessions, tools := tools, receipts := Without(tables.receipts, gone)), |gone|)
  }

  function Apply(tables: Tables, s: Statement): Effect {
    match s
    case CreateTurn(record) =>
      if record.turnId in tables.turns then Violates else
      var row := TurnRow(Serialize(record), Some(record.sessionId), Some(record.activeSessionId), None, None);
      Changed(tables.(turns := tables.turns[record.turnId := row]), 1)
    case SaveTurn(record, owner) => Save(tables, record, owner)
    case AcquireLease(turn, owner, expiresAt, now) => Acquire(tables, turn, owner, expiresAt, now)
    case RenewLease(turn, owner, expiresAt) => Renew(tables, turn, owner, expiresAt)
    case ReleaseLease(turn, owner) => Release(tables, turn, owner)
    case ReplaceContent(message, content, unlessHeld) => Replace(tables, message, content, unlessHeld)
    case SaveMessage(session, content) =>
      if session !in tables.sessions then Violates else
      Changed(tables.(messages := tables.messages[tables.nextMessage := MessageRow(session, content)],
        nextMessage := tables.nextMessage + 1), 1)
    case TruncateMessages(session, keep) => Truncate(tables, session, keep)
    case SaveTool(key, row) => UpsertTool(tables, key, row)
    case RecordUsage(session, usage, estimate) => AddUsage(tables, session, usage, estimate)
    case RecordCompaction(session, usage, estimate) => AddCompaction(tables, session, usage, estimate)
    case RecordLineage(compacted, child) =>
      if compacted !in tables.sessions || child !in tables.sessions then Violates
      else Changed(tables.(lineage := tables.lineage + {(compacted, child)}),
        if (compacted, child) in tables.lineage then 0 else 1)
    case CreateSession(session, parent) =>
      if session in tables.sessions then Violates
      else Changed(tables.(sessions := tables.sessions[session := NewSession(parent)]), 1)
    case DeleteSession(session) => Delete(tables, session)
    case SweepKind(stale) => Sweep(tables, stale)
    case SweepPhantoms(stale) => DropPhantoms(tables, stale)
  }

  /** The effect of statement `s` on the tables; nothing when it is refused. */
  function Step(tables: Tables, s: Statement): Tables {
    After(tables, Apply(tables, s))
  }

  /** How many rows a statement changes, counting a refusal as none. */
  function Rows(tables: Tables, s: Statement): nat {
    var effect := Apply(tables, s);
    if effect.Violates? then 0 else effect.rows
  }
}
