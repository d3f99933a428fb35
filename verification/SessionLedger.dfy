/** What every statement keeps: indexed columns that agree with their records,
    totals that agree with the receipts, and completed tool receipts. */
module SessionLedger {
  import opened Prelude
  import opened Runs
  import opened SessionTables

  // ---- Indexed columns ----

  function SessionOf(record: Stored): Option<string> {
    if record.Readable? then record.sessionId else None
  }

  function ActiveSessionOf(record: Stored): Option<string> {
    if record.Readable? then record.activeSessionId else None
  }

  /** Each row's indexed columns are the fields of its stored record. */
  ghost predicate ColumnsAgree(tables: Tables) {
    forall id :: id in tables.turns ==>
      tables.turns[id].sessionId == SessionOf(tables.turns[id].record)
      && tables.turns[id].activeSessionId == ActiveSessionOf(tables.turns[id].record)
  }

  /** The migration's UPDATE: json_extract where the record is valid JSON. The
      columns have just been added, so they start out null. */
  function Backfill(turns: map<string, TurnRow>): map<string, TurnRow> {
    map id | id in turns ::
      if turns[id].record.Readable?
      then turns[id].(sessionId := turns[id].record.sessionId, activeSessionId := turns[id].record.activeSessionId)
      else turns[id]
  }

  /** The backfill establishes the agreement, and touches nothing but the columns. */
  lemma BackfillAgrees(tables: Tables)
    requires forall id :: id in tables.turns ==>
      tables.turns[id].sessionId.None? && tables.turns[id].activeSessionId.None?
    ensures var next := tables.(turns := Backfill(tables.turns));
      && ColumnsAgree(next) && next.turns.Keys == tables.turns.Keys
      && forall id :: id in tables.turns ==>
        next.turns[id].(sessionId := None, activeSessionId := None) == tables.turns[id]
  {}

  lemma StepKeepsColumns(tables: Tables, s: Statement)
    requires ColumnsAgree(tables)
    ensures ColumnsAgree(Step(tables, s))
  {}

  // ---- Deleting sessions ----

  /** The record is readable and names one of the sessions or a direct compacted child. */
  ghost predicate NamesFamily(tables: Tables, record: Stored, gone: set<string>) {
    record.Readable?
    && (Targeted(tables, gone, record.sessionId) || Targeted(tables, gone, record.activeSessionId))
  }

  /** Exactly the logical turns go whose readable record names the family. */
  ghost predicate FamilyTurnsGo(tables: Tables, next: Tables, gone: set<string>) {
    && (forall id ::
          (id in next.turns <==> id in tables.turns && !NamesFamily(tables, tables.turns[id].record, gone)))
    && (forall id :: id in next.turns ==> next.turns[id] == tables.turns[id])
  }

  lemma RemoveTurns(tables: Tables, gone: set<string>)
    requires ColumnsAgree(tables)
    ensures FamilyTurnsGo(tables, Remove(tables, gone), gone)
  {}

  lemma SameFamily(tables: Tables, session: string, record: Stored)
    ensures NamesFamily(DetachAll(tables, session), record, {session}) <==> NamesFamily(tables, record, {session})
  {}

  /** With agreeing columns a delete removes exactly the logical turns whose readable record
      names the session or a direct compacted child. */
  lemma DeleteTurns(tables: Tables, session: string)
    requires ColumnsAgree(tables)
    ensures FamilyTurnsGo(tables, Step(tables, DeleteSession(session)), {session})
  {
    RemoveTurns(DetachAll(tables, session), {session});
    forall record: Stored
      ensures NamesFamily(DetachAll(tables, session), record, {session}) <==> NamesFamily(tables, record, {session})
    {
      SameFamily(tables, session, record);
    }
  }

  /** A sweep by kind does so for the stale sessions that are there. */
  lemma SweepTurns(tables: Tables, stale: set<string>)
    requires ColumnsAgree(tables)
    ensures FamilyTurnsGo(tables, Step(tables, SweepKind(stale)), stale * tables.sessions.Keys)
  {
    RemoveTurns(tables, stale * tables.sessions.Keys);
  }

  lemma TargetedOne(tables: Tables, session: string, id: Option<string>)
    ensures Targeted(tables, {session}, id) <==>
      id.Some? && (id.value == session || (session, id.value) in tables.lineage)
  {
    assert session in {session};
  }

  /** Recording a compaction makes the parent's deletion take the child's turns along,
      and an ordinary child's turns stay. */
  lemma CompactedChildGoes(tables: Tables, parent: string, child: string, turn: string)
    requires ColumnsAgree(tables) && parent in tables.sessions && child in tables.sessions && parent != child
    requires turn in tables.turns && tables.turns[turn].record.Readable?
    requires tables.turns[turn].record.sessionId == tables.turns[turn].record.activeSessionId == Some(child)
    ensures turn !in Step(Step(tables, RecordLineage(parent, child)), DeleteSession(parent)).turns
    ensures turn in Step(tables, DeleteSession(parent)).turns <==> (parent, child) !in tables.lineage
  {
    var recorded := Step(tables, RecordLineage(parent, child));
    assert recorded.lineage == tables.lineage + {(parent, child)} && recorded.turns == tables.turns;
    DeleteTurns(tables, parent);
    DeleteTurns(recorded, parent);
    TargetedOne(tables, parent, Some(child));
    TargetedOne(recorded, parent, Some(child));
  }

  /** No row of any table is left that names the session, parent pointers aside. */
  ghost predicate RowsGone(tables: Tables, session: string) {
    && session !in tables.sessions
    && (forall id :: id in tables.messages ==> tables.messages[id].session != session)
    && (forall pair :: pair in tables.lineage ==> pair.0 != session && pair.1 != session)
    && (forall key :: key in tables.tools ==> key.session != session)
    && (forall i :: 0 <= i < |tables.receipts| ==> tables.receipts[i].session != session)
  }

  ghost predicate NoChildren(tables: Tables, session: string) {
    forall id :: id in tables.sessions ==> tables.sessions[id].parent != Some(session)
  }

  lemma {:induction false} WithoutOnly(receipts: seq<Receipt>, gone: set<string>)
    ensures forall r :: r in Without(receipts, gone) <==> r in receipts && r.session !in gone
  {
    if receipts != [] {
      WithoutOnly(receipts[1..], gone);
      assert receipts == [receipts[0]] + receipts[1..];
    }
  }

  /** The receipts of one session, in their order. */
  function ReceiptsOf(receipts: seq<Receipt>, session: string): seq<Receipt> {
    if receipts == [] then []
    else if receipts[0].session == session then [receipts[0]] + ReceiptsOf(receipts[1..], session)
    else ReceiptsOf(receipts[1..], session)
  }

  lemma {:induction false} WithoutKeepsOthers(receipts: seq<Receipt>, gone: set<string>, session: string)
    requires session !in gone
    ensures ReceiptsOf(Without(receipts, gone), session) == ReceiptsOf(receipts, session)
  {
    if receipts != [] {
      WithoutKeepsOthers(receipts[1..], gone, session);
      var rest := Without(receipts[1..], gone);
      assert ([receipts[0]] + rest)[1..] == rest;
    }
  }

  /** Another session keeps its row as it is here, its messages, its receipts in their
      order, and the journal rows of its messages. */
  ghost predicate Untouched(tables: Tables, next: Tables, other: string) {
    && (other in tables.sessions <==> other in next.sessions)
    && (other in tables.sessions ==> next.sessions[other] == tables.sessions[other])
    && (forall id :: id in tables.messages && tables.messages[id].session == other ==>
          id in next.messages && next.messages[id] == tables.messages[id])
    && ReceiptsOf(next.receipts, other) == ReceiptsOf(tables.receipts, other)
    && (forall key | key in tables.tools && key.session == other && key.message in tables.messages ::
          tables.messages[key.message].session == other ==>
            key in next.tools && next.tools[key] == tables.tools[key])
  }

  ghost predicate BringsNothing(tables: Tables, next: Tables) {
    && next.sessions.Keys <= tables.sessions.Keys && next.messages.Keys <= tables.messages.Keys
    && next.tools.Keys <= tables.tools.Keys && next.lineage <= tables.lineage
  }

  lemma RemoveLeavesNothing(tables: Tables, gone: set<string>, session: string)
    ensures BringsNothing(tables, Remove(tables, gone))
    ensures session in gone ==> RowsGone(Remove(tables, gone), session)
    ensures session !in gone ==> Untouched(tables, Remove(tables, gone), session)
  {
    WithoutOnly(tables.receipts, gone);
    var rest := Without(tables.receipts, gone);
    assert forall i :: 0 <= i < |rest| ==> rest[i] in rest;
    if session !in gone {
      WithoutKeepsOthers(tables.receipts, gone, session);
    }
  }

  /** A delete reports whether the session was there, leaves nothing that names it, brings
      nothing in, and leaves every other session untouched but for a parent pointer to the
      deleted one. */
  lemma DeleteLeavesNothing(tables: Tables, session: string, other: string)
    requires other != session
    ensures var next := Step(tables, DeleteSession(session));
      && RowsGone(next, session) && NoChildren(next, session) && BringsNothing(tables, next)
      && Untouched(DetachAll(tables, session), next, other)
    ensures Rows(tables, DeleteSession(session)) == 1 <==> session in tables.sessions
  {
    RemoveLeavesNothing(DetachAll(tables, session), {session}, session);
    RemoveLeavesNothing(DetachAll(tables, session), {session}, other);
  }

  /** A sweep by kind does the same for every stale session that is there, but leaves the
      parent pointers to them. */
  lemma SweepLeavesNothing(tables: Tables, stale: set<string>, session: string)
    ensures var next := Step(tables, SweepKind(stale));
      && BringsNothing(tables, next)
      && (session in stale && session in tables.sessions ==> RowsGone(next, session))
      && (session !in stale || session !in tables.sessions ==> Untouched(tables, next, session))
  {
    RemoveLeavesNothing(tables, stale * tables.sessions.Keys, session);
  }

  lemma PhantomFails(tables: Tables, stale: set<string>)
    ensures DropPhantoms(tables, stale).Violates? <==>
      exists pair :: pair in tables.lineage && (Swept(tables, stale, pair.0) || Swept(tables, stale, pair.1))
  {}

  lemma PhantomReceipts(tables: Tables, next: Tables, stale: set<string>, session: string)
    requires DropPhantoms(tables, stale).Changed? && next == DropPhantoms(tables, stale).tables
    ensures Swept(tables, stale, session) ==>
      forall i :: 0 <= i < |next.receipts| ==> next.receipts[i].session != session
    ensures !Swept(tables, stale, session) ==>
      ReceiptsOf(next.receipts, session) == ReceiptsOf(tables.receipts, session)
  {
    var gone := set id | id in stale && Swept(tables, stale, id);
    WithoutOnly(tables.receipts, gone);
    assert forall i :: 0 <= i < |next.receipts| ==> next.receipts[i] in next.receipts;
    if session !in gone {
      WithoutKeepsOthers(tables.receipts, gone, session);
    }
  }

  /** A stale session without a token and without a message. */
  ghost predicate Stray(tables: Tables, stale: set<string>, session: string) {
    && session in stale && session in tables.sessions
    && tables.sessions[session].inputTokens == 0 && tables.sessions[session].outputTokens == 0
    && forall id :: id in tables.messages ==> tables.messages[id].session != session
  }

  lemma SweptIff(tables: Tables, stale: set<string>, session: string)
    ensures Swept(tables, stale, session) <==> Stray(tables, stale, session)
  {}

  /** The sweep of phantoms deletes session rows alone, yet nothing that names one is left,
      and every other session keeps its rows; it fails as a whole exactly when a lineage row
      names one of them. */
  lemma PhantomLeavesNothing(tables: Tables, stale: set<string>, session: string)
    ensures var next := Step(tables, SweepPhantoms(stale));
      && next.turns == tables.turns && next.messages == tables.messages && BringsNothing(tables, next)
      && (DropPhantoms(tables, stale).Changed? ==>
            if Stray(tables, stale, session) then RowsGone(next, session) else Untouched(tables, next, session))
    ensures DropPhantoms(tables, stale).Violates? <==>
      exists pair :: pair in tables.lineage && (Stray(tables, stale, pair.0) || Stray(tables, stale, pair.1))
  {
    PhantomFails(tables, stale);
    forall id
      ensures Swept(tables, stale, id) <==> Stray(tables, stale, id)
    {
      SweptIff(tables, stale, id);
    }
    if DropPhantoms(tables, stale).Changed? {
      PhantomReceipts(tables, DropPhantoms(tables, stale).tables, stale, session);
    }
  }

  // ---- The usage ledger ----

  /** What a session's receipts add up to. */
  datatype Totals = Totals(cost: real, input: nat, output: nat, complete: bool)

  function Share(r: Receipt, session: string): Totals {
    if r.session != session then Totals(0.0, 0, 0, true)
    else Totals(KnownAmount(r.estimate), OrZero(r.usage.input), OrZero(r.usage.output), Known(r.estimate))
  }

  function Plus(a: Totals, b: Totals): Totals {
    Totals(a.cost + b.cost, a.input + b.input, a.output + b.output, a.complete && b.complete)
  }

  function Sum(receipts: seq<Receipt>, session: string): Totals {
    if receipts == [] then Totals(0.0, 0, 0, true) else Plus(Share(receipts[0], session), Sum(receipts[1..], session))
  }

  /** One session's totals, chat and compaction together, against its receipts. */
  ghost predicate Balanced(row: SessionRow, receipts: seq<Receipt>, session: string) {
    Sum(receipts, session)
      == Totals(row.cost + row.compactionCost, row.inputTokens + row.compactionInput,
           row.outputTokens + row.compactionOutput, row.costComplete)
  }

  /** Every session balances, and no receipt is left of a session that is not there. */
  ghost predicate Ledger(tables: Tables) {
    && (forall session :: session in tables.sessions ==> Balanced(tables.sessions[session], tables.receipts, session))
    && (forall r :: r in tables.receipts ==> r.session in tables.sessions)
  }

  /** The sum is complete exactly when every receipt of the session is known. */
  lemma {:induction false} CompleteIff(receipts: seq<Receipt>, session: string)
    ensures Sum(receipts, session).complete <==> forall r :: r in receipts && r.session == session ==> Known(r.estimate)
  {
    if receipts != [] {
      CompleteIff(receipts[1..], session);
      assert forall r :: r in receipts <==> r == receipts[0] || r in receipts[1..];
    }
  }

  lemma {:induction false} NoReceipts(receipts: seq<Receipt>, session: string)
    requires forall r :: r in receipts ==> r.session != session
    ensures Sum(receipts, session) == Totals(0.0, 0, 0, true)
  {
    if receipts != [] {
      assert receipts[0] in receipts;
      NoReceipts(receipts[1..], session);
    }
  }

  lemma SumFirst(r: Receipt, rest: seq<Receipt>, session: string)
    ensures Sum([r] + rest, session) == Plus(Share(r, session), Sum(rest, session))
  {
    assert ([r] + rest)[1..] == rest;
  }

  lemma PlusAssociates(a: Totals, b: Totals, c: Totals)
    ensures Plus(a, Plus(b, c)) == Plus(Plus(a, b), c) && Plus(a, b) == Plus(b, a)
  {}

  lemma {:induction false} OneReceipt(receipts: seq<Receipt>, r: Receipt, session: string)
    ensures Sum(receipts + [r], session) == Plus(Sum(receipts, session), Share(r, session))
  {
    var all := receipts + [r];
    if receipts == [] {
      assert all[0] == r && all[1..] == [];
      PlusAssociates(Sum([], session), Share(r, session), Sum([], session));
    } else {
      var first, rest := receipts[0], receipts[1..];
      assert all[0] == first && all[1..] == rest + [r];
      OneReceipt(rest, r, session);
      PlusAssociates(Share(first, session), Sum(rest, session), Share(r, session));
    }
  }

  lemma {:induction false} WithoutSums(receipts: seq<Receipt>, gone: set<string>, session: string)
    requires session !in gone
    ensures Sum(Without(receipts, gone), session) == Sum(receipts, session)
  {
    if receipts != [] {
      WithoutSums(receipts[1..], gone, session);
      SumFirst(receipts[0], Without(receipts[1..], gone), session);
    }
  }

  /** Adding what a receipt says to a balanced row balances it against the receipt too. */
  lemma Posted(row: SessionRow, next: SessionRow, receipts: seq<Receipt>, r: Receipt)
    requires Balanced(row, receipts, r.session)
    requires next.cost + next.compactionCost == row.cost + row.compactionCost + KnownAmount(r.estimate)
    requires next.inputTokens + next.compactionInput == row.inputTokens + row.compactionInput + OrZero(r.usage.input)
    requires next.outputTokens + next.compactionOutput
      == row.outputTokens + row.compactionOutput + OrZero(r.usage.output)
    requires next.costComplete == (row.costComplete && Known(r.estimate))
    ensures Balanced(next, receipts + [r], r.session)
  {
    OneReceipt(receipts, r, r.session);
  }

  /** Another session's receipt leaves a row balanced. */
  lemma NotPosted(row: SessionRow, receipts: seq<Receipt>, r: Receipt, session: string)
    requires Balanced(row, receipts, session) && session != r.session
    ensures Balanced(row, receipts + [r], session)
  {
    OneReceipt(receipts, r, session);
  }

  /** Posting one receipt to its session's row keeps the ledger. */
  lemma PostKeepsLedger(tables: Tables, next: Tables, r: Receipt, row: SessionRow)
    requires Ledger(tables) && r.session in tables.sessions
    requires next.sessions == tables.sessions[r.session := row] && next.receipts == tables.receipts + [r]
    requires Balanced(row, next.receipts, r.session)
    ensures Ledger(next)
  {
    forall session | session in next.sessions && session != r.session
      ensures Balanced(next.sessions[session], next.receipts, session)
    {
      NotPosted(tables.sessions[session], tables.receipts, r, session);
    }
  }

  lemma AddUsageBalances(tables: Tables, session: string, usage: Usage, estimate: Estimate)
    requires Ledger(tables)
    ensures Ledger(After(tables, AddUsage(tables, session, usage, estimate)))
  {
    if session in tables.sessions {
      var next, r := After(tables, AddUsage(tables, session, usage, estimate)), Receipt(session, usage, estimate);
      Posted(tables.sessions[session], next.sessions[session], tables.receipts, r);
      PostKeepsLedger(tables, next, r, next.sessions[session]);
    }
  }

  lemma AddCompactionBalances(tables: Tables, session: string, usage: Usage, estimate: Estimate)
    requires Ledger(tables)
    ensures Ledger(After(tables, AddCompaction(tables, session, usage, estimate)))
  {
    if session in tables.sessions {
      var next := After(tables, AddCompaction(tables, session, usage, estimate));
      var r := Receipt(session, usage, Recorded(estimate));
      Posted(tables.sessions[session], next.sessions[session], tables.receipts, r);
      PostKeepsLedger(tables, next, r, next.sessions[session]);
    }
  }

  /** The rows that stay keep their totals, and lose no receipt. */
  lemma DroppedBalances(tables: Tables, next: Tables, gone: set<string>)
    requires Ledger(tables) && next.receipts == Without(tables.receipts, gone)
    requires forall id :: id in next.sessions <==> id in tables.sessions && id !in gone
    requires forall id :: id in next.sessions ==> next.sessions[id] == tables.sessions[id]
    ensures Ledger(next)
  {
    WithoutOnly(tables.receipts, gone);
    forall other | other in next.sessions
      ensures Balanced(next.sessions[other], next.receipts, other)
    {
      WithoutSums(tables.receipts, gone, other);
    }
  }

  lemma DetachBalances(tables: Tables, session: string)
    requires Ledger(tables)
    ensures Ledger(DetachAll(tables, session))
  {
    var next := DetachAll(tables, session);
    forall other | other in next.sessions
      ensures Balanced(next.sessions[other], next.receipts, other)
    {
      assert Balanced(tables.sessions[other], tables.receipts, other);
    }
  }

  lemma DeleteBalances(tables: Tables, session: string)
    requires Ledger(tables)
    ensures Ledger(After(tables, Delete(tables, session)))
  {
    DetachBalances(tables, session);
    DroppedBalances(DetachAll(tables, session), Remove(DetachAll(tables, session), {session}), {session});
  }

  lemma SweepBalances(tables: Tables, stale: set<string>)
    requires Ledger(tables)
    ensures Ledger(After(tables, Sweep(tables, stale)))
  {
    var gone := stale * tables.sessions.Keys;
    DroppedBalances(tables, Remove(tables, gone), gone);
  }

  lemma PhantomBalances(tables: Tables, stale: set<string>)
    requires Ledger(tables)
    ensures Ledger(After(tables, DropPhantoms(tables, stale)))
  {
    var gone := set id | id in stale && Swept(tables, stale, id);
    if DropPhantoms(tables, stale).Changed? {
      DroppedBalances(tables, DropPhantoms(tables, stale).tables, gone);
    }
  }

  lemma CreateBalances(tables: Tables, session: string, parent: Option<string>)
    requires Ledger(tables)
    ensures Ledger(Step(tables, CreateSession(session, parent)))
  {
    if session !in tables.sessions {
      NoReceipts(tables.receipts, session);
      AddedRow(tables, tables.(sessions := tables.sessions[session := NewSession(parent)]), session);
    }
  }

  /** A new row that balances keeps the ledger. */
  lemma AddedRow(tables: Tables, next: Tables, session: string)
    requires Ledger(tables) && session in next.sessions && next.receipts == tables.receipts
    requires next.sessions == tables.sessions[session := next.sessions[session]]
    requires Balanced(next.sessions[session], next.receipts, session)
    ensures Ledger(next)
  {}

  lemma SameLedger(tables: Tables, next: Tables)
    requires Ledger(tables) && next.sessions == tables.sessions && next.receipts == tables.receipts
    ensures Ledger(next)
  {}

  /** The statements that touch neither the sessions nor the receipts. */
  predicate LeavesUsage(s: Statement) {
    !(s.RecordUsage? || s.RecordCompaction? || s.CreateSession? || s.DeleteSession? || s.SweepKind?
      || s.SweepPhantoms?)
  }

  lemma KeepsUsage(tables: Tables, s: Statement)
    requires LeavesUsage(s)
    ensures Step(tables, s).sessions == tables.sessions && Step(tables, s).receipts == tables.receipts
  {}

  lemma StepBalances(tables: Tables, s: Statement)
    requires Ledger(tables)
    ensures Ledger(Step(tables, s))
  {
    match s
    case RecordUsage(session, usage, estimate) => AddUsageBalances(tables, session, usage, estimate);
    case RecordCompaction(session, usage, estimate) => AddCompactionBalances(tables, session, usage, estimate);
    case CreateSession(session, parent) => CreateBalances(tables, session, parent);
    case DeleteSession(session) => DeleteBalances(tables, session);
    case SweepKind(stale) => SweepBalances(tables, stale);
    case SweepPhantoms(stale) => PhantomBalances(tables, stale);
    case _ =>
      KeepsUsage(tables, s);
      SameLedger(tables, Step(tables, s));
  }

  /** From an empty database, whatever statements run in whatever order, every
      session's totals are the sums over its receipts, its cost counts as complete
      exactly when every receipt is known, and the indexed columns agree. */
  lemma LedgerAllAlong(run: seq<Statement>, n: nat)
    requires n <= |run|
    ensures Ledger(At(Step, EMPTY, run, n)) && ColumnsAgree(At(Step, EMPTY, run, n))
  {
    var any := (t: Tables, s: Statement) => true;
    var sound := (t: Tables) => Ledger(t) && ColumnsAgree(t);
    forall t: Tables, s: Statement | sound(t) && any(t, s)
      ensures sound(Step(t, s))
    {
      StepBalances(t, s);
      StepKeepsColumns(t, s);
    }
    AllAlong(Step, any, sound, EMPTY, run, n);
  }

  // ---- Cache totals ----

  datatype Cache = Cache(read: nat, creation: nat)

  function CacheOf(usage: Usage): Cache {
    Cache(OrZero(usage.cacheRead), OrZero(usage.cacheCreation))
  }

  function AddCache(a: Cache, b: Cache): Cache {
    Cache(a.read + b.read, a.creation + b.creation)
  }

  /** What a session's receipts say of the cache. */
  function CacheSum(receipts: seq<Receipt>, session: string): Cache {
    if receipts == [] then Cache(0, 0)
    else if receipts[0].session == session then AddCache(CacheOf(receipts[0].usage), CacheSum(receipts[1..], session))
    else CacheSum(receipts[1..], session)
  }

  lemma {:induction false} OneCacheReceipt(receipts: seq<Receipt>, r: Receipt, session: string)
    ensures CacheSum(receipts + [r], session)
      == if r.session == session then AddCache(CacheSum(receipts, session), CacheOf(r.usage))
         else CacheSum(receipts, session)
  {
    var all := receipts + [r];
    if receipts == [] {
      assert all[0] == r && all[1..] == [];
    } else {
      assert all[0] == receipts[0] && all[1..] == receipts[1..] + [r];
      OneCacheReceipt(receipts[1..], r, session);
    }
  }

  lemma {:induction false} WithoutCache(receipts: seq<Receipt>, gone: set<string>, session: string)
    ensures CacheSum(Without(receipts, gone), session)
      == if session in gone then Cache(0, 0) else CacheSum(receipts, session)
  {
    if receipts != [] {
      WithoutCache(receipts[1..], gone, session);
      var rest := Without(receipts[1..], gone);
      assert ([receipts[0]] + rest)[1..] == rest;
    }
  }

  lemma {:induction false} NoCacheReceipts(receipts: seq<Receipt>, session: string)
    requires forall r :: r in receipts ==> r.session != session
    ensures CacheSum(receipts, session) == Cache(0, 0)
  {
    if receipts != [] {
      assert receipts[0] in receipts;
      NoCacheReceipts(receipts[1..], session);
    }
  }

  /** The cache totals of a session. */
  function CacheTotals(row: SessionRow): Cache {
    Cache(row.cacheRead, row.cacheCreation)
  }

  /** The totals fall short of the receipts by `gap`. */
  ghost predicate Short(row: SessionRow, receipts: seq<Receipt>, session: string, gap: Cache) {
    CacheSum(receipts, session) == AddCache(CacheTotals(row), gap)
  }

  ghost predicate ShortIn(tables: Tables, session: string, gap: Cache) {
    session in tables.sessions && Short(tables.sessions[session], tables.receipts, session, gap)
  }

  /** A compaction of the session that reports cache tokens. */
  predicate CompactsCache(s: Statement, session: string) {
    s.RecordCompaction? && s.session == session && CacheOf(s.usage) != Cache(0, 0)
  }

  /** How one statement widens the gap of a session that is there. */
  function Widens(s: Statement, session: string): Cache {
    if CompactsCache(s, session) then CacheOf(s.usage) else Cache(0, 0)
  }

  lemma GapAlgebra(sum: Cache, before: Cache, gap: Cache, used: Cache, after: Cache, more: Cache)
    requires sum == AddCache(before, gap) && AddCache(after, more) == AddCache(before, used)
    ensures AddCache(sum, used) == AddCache(after, AddCache(gap, more))
  {}

  /** A receipt widens its session's gap by what the totals leave out of it. */
  lemma Charged(row: SessionRow, next: SessionRow, receipts: seq<Receipt>, r: Receipt, gap: Cache, more: Cache)
    requires Short(row, receipts, r.session, gap)
    requires AddCache(CacheTotals(next), more) == AddCache(CacheTotals(row), CacheOf(r.usage))
    ensures Short(next, receipts + [r], r.session, AddCache(gap, more))
  {
    var session := r.session;
    OneCacheReceipt(receipts, r, session);
    GapAlgebra(CacheSum(receipts, session), CacheTotals(row), gap, CacheOf(r.usage), CacheTotals(next), more);
  }

  lemma NotCharged(row: SessionRow, receipts: seq<Receipt>, r: Receipt, session: string, gap: Cache)
    requires Short(row, receipts, session, gap) && session != r.session
    ensures Short(row, receipts + [r], session, gap)
  {
    OneCacheReceipt(receipts, r, session);
  }

  lemma DroppedGap(tables: Tables, next: Tables, gone: set<string>, session: string, gap: Cache)
    requires ShortIn(tables, session, gap) && session !in gone
    requires next.receipts == Without(tables.receipts, gone) && session in next.sessions
    requires CacheTotals(next.sessions[session]) == CacheTotals(tables.sessions[session])
    ensures ShortIn(next, session, AddCache(gap, Cache(0, 0)))
  {
    WithoutCache(tables.receipts, gone, session);
  }

  lemma DeleteKeepsGap(tables: Tables, gone: string, session: string, gap: Cache)
    requires ShortIn(tables, session, gap) && session != gone
    ensures ShortIn(After(tables, Delete(tables, gone)), session, AddCache(gap, Cache(0, 0)))
  {
    DroppedGap(tables, Remove(DetachAll(tables, gone), {gone}), {gone}, session, gap);
  }

  lemma SweepKeepsGap(tables: Tables, stale: set<string>, session: string, gap: Cache)
    requires ShortIn(tables, session, gap) && session !in stale
    ensures ShortIn(After(tables, Sweep(tables, stale)), session, AddCache(gap, Cache(0, 0)))
  {
    var gone := stale * tables.sessions.Keys;
    DroppedGap(tables, Remove(tables, gone), gone, session, gap);
  }

  lemma PhantomKeepsGap(tables: Tables, stale: set<string>, session: string, gap: Cache)
    requires ShortIn(tables, session, gap) && session in After(tables, DropPhantoms(tables, stale)).sessions
    ensures ShortIn(After(tables, DropPhantoms(tables, stale)), session, AddCache(gap, Cache(0, 0)))
  {
    var gone := set id | id in stale && Swept(tables, stale, id);
    if DropPhantoms(tables, stale).Changed? {
      DroppedGap(tables, DropPhantoms(tables, stale).tables, gone, session, gap);
    }
  }

  lemma UsageKeepsGap(tables: Tables, id: string, usage: Usage, e: Estimate, session: string, gap: Cache)
    requires ShortIn(tables, session, gap)
    ensures ShortIn(After(tables, AddUsage(tables, id, usage, e)), session, AddCache(gap, Cache(0, 0)))
  {
    if id in tables.sessions {
      var next, r := After(tables, AddUsage(tables, id, usage, e)), Receipt(id, usage, e);
      if id == session {
        Charged(tables.sessions[id], next.sessions[id], tables.receipts, r, gap, Cache(0, 0));
      } else {
        NotCharged(tables.sessions[session], tables.receipts, r, session, gap);
      }
    }
  }

  lemma CompactionWidensGap(tables: Tables, id: string, usage: Usage, e: Estimate, session: string, gap: Cache)
    requires ShortIn(tables, session, gap)
    ensures ShortIn(After(tables, AddCompaction(tables, id, usage, e)), session,
      AddCache(gap, if id == session then CacheOf(usage) else Cache(0, 0)))
  {
    if id in tables.sessions {
      var next, r := After(tables, AddCompaction(tables, id, usage, e)), Receipt(id, usage, Recorded(e));
      if id == session {
        Charged(tables.sessions[id], next.sessions[id], tables.receipts, r, gap, CacheOf(usage));
      } else {
        NotCharged(tables.sessions[session], tables.receipts, r, session, gap);
      }
    }
  }

  lemma SameGap(tables: Tables, next: Tables, session: string, gap: Cache)
    requires ShortIn(tables, session, gap) && next.receipts == tables.receipts
    requires session in next.sessions && next.sessions[session] == tables.sessions[session]
    ensures ShortIn(next, session, AddCache(gap, Cache(0, 0)))
  {}

  /** While its session is there, the gap widens by what compactions report of the
      cache, and nothing closes it. */
  lemma StepWidens(tables: Tables, s: Statement, session: string, gap: Cache)
    requires ShortIn(tables, session, gap) && session in Step(tables, s).sessions
    ensures ShortIn(Step(tables, s), session, AddCache(gap, Widens(s, session)))
  {
    match s
    case RecordUsage(id, usage, estimate) => UsageKeepsGap(tables, id, usage, estimate, session, gap);
    case RecordCompaction(id, usage, estimate) => CompactionWidensGap(tables, id, usage, estimate, session, gap);
    case DeleteSession(gone) => DeleteKeepsGap(tables, gone, session, gap);
    case SweepKind(stale) => SweepKeepsGap(tables, stale, session, gap);
    case SweepPhantoms(stale) => PhantomKeepsGap(tables, stale, session, gap);
    case CreateSession(_, _) => SameGap(tables, Step(tables, s), session, gap);
    case _ =>
      KeepsUsage(tables, s);
      SameGap(tables, Step(tables, s), session, gap);
  }

  /** The session is there from the state before statement `i` to the state `n`. */
  ghost predicate Lives(run: seq<Statement>, session: string, i: nat, n: nat)
    requires n <= |run|
  {
    session in At(Step, EMPTY, run, n).sessions && (i < n ==> Lives(run, session, i, n - 1))
  }

  /** No compaction since the session was created has reported cache tokens. */
  ghost predicate NoCompactedCache(run: seq<Statement>, session: string, n: nat)
    requires n <= |run|
  {
    forall i :: 0 <= i < n && CompactsCache(run[i], session) ==> !Lives(run, session, i, n)
  }

  lemma CompactedCacheStep(run: seq<Statement>, session: string, n: nat)
    requires 0 < n <= |run| && session in At(Step, EMPTY, run, n).sessions
    ensures NoCompactedCache(run, session, n)
      <==> NoCompactedCache(run, session, n - 1)
           && !(CompactsCache(run[n - 1], session) && Lives(run, session, n - 1, n - 1))
  {
    forall i | 0 <= i < n
      ensures Lives(run, session, i, n) <==> Lives(run, session, i, n - 1)
    {}
  }

  /** Nothing of a session that is not there has lived. */
  lemma NotThere(run: seq<Statement>, session: string, n: nat)
    requires n <= |run| && session !in At(Step, EMPTY, run, n).sessions
    ensures NoCompactedCache(run, session, n)
  {}

  lemma OnlyCreates(tables: Tables, s: Statement, session: string)
    requires session !in tables.sessions && session in Step(tables, s).sessions
    ensures s.CreateSession? && s.session == session
  {}

  lemma CreationOpensGap(tables: Tables, session: string, parent: Option<string>)
    requires Ledger(tables) && session !in tables.sessions
    ensures ShortIn(Step(tables, CreateSession(session, parent)), session, Cache(0, 0))
  {
    NoCacheReceipts(tables.receipts, session);
  }

  lemma WidenedNothing(s: Statement, session: string, last: Cache)
    ensures AddCache(last, Widens(s, session)) == Cache(0, 0) <==> last == Cache(0, 0) && !CompactsCache(s, session)
  {
    BothNothing(last, Widens(s, session));
  }

  lemma BothNothing(a: Cache, b: Cache)
    ensures AddCache(a, b) == Cache(0, 0) <==> a == Cache(0, 0) && b == Cache(0, 0)
  {
    var sum := AddCache(a, b);
    assert sum.read == a.read + b.read && sum.creation == a.creation + b.creation;
    assert a == Cache(a.read, a.creation) && b == Cache(b.read, b.creation);
  }

  lemma WidenedGap(tables: Tables, s: Statement, session: string, last: Cache) returns (gap: Cache)
    requires ShortIn(tables, session, last) && session in Step(tables, s).sessions
    ensures ShortIn(Step(tables, s), session, gap)
    ensures gap == Cache(0, 0) <==> last == Cache(0, 0) && !CompactsCache(s, session)
  {
    gap := AddCache(last, Widens(s, session));
    StepWidens(tables, s, session, last);
    WidenedNothing(s, session, last);
  }

  /** From an empty database, the receipts exceed the cache totals by a gap that is
      nothing exactly when no compaction since the session's creation reported cache
      tokens. */
  lemma {:induction false} CacheGap(run: seq<Statement>, session: string, n: nat) returns (gap: Cache)
    requires n <= |run| && session in At(Step, EMPTY, run, n).sessions
    ensures ShortIn(At(Step, EMPTY, run, n), session, gap)
    ensures gap == Cache(0, 0) <==> NoCompactedCache(run, session, n)
    decreases n
  {
    assert n > 0;
    CompactedCacheStep(run, session, n);
    if session in At(Step, EMPTY, run, n - 1).sessions {
      var last := CacheGap(run, session, n - 1);
      gap := WidenedGap(At(Step, EMPTY, run, n - 1), run[n - 1], session, last);
      assert Lives(run, session, n - 1, n - 1);
    } else {
      LedgerAllAlong(run, n - 1);
      NotThere(run, session, n - 1);
      OnlyCreates(At(Step, EMPTY, run, n - 1), run[n - 1], session);
      CreationOpensGap(At(Step, EMPTY, run, n - 1), session, run[n - 1].parent);
      gap := Cache(0, 0);
    }
  }

  /** A session's cache totals are the sums over its receipts exactly when no
      compaction since its creation reported cache tokens. */
  lemma CacheTotalsIff(run: seq<Statement>, session: string, n: nat)
    requires n <= |run| && session in At(Step, EMPTY, run, n).sessions
    ensures var tables := At(Step, EMPTY, run, n);
      CacheTotals(tables.sessions[session]) == CacheSum(tables.receipts, session)
      <==> NoCompactedCache(run, session, n)
  {
    var _ := CacheGap(run, session, n);
  }

  /** It happens: one compaction that reports a cached token, after agreeing totals. */
  lemma CompactionHidesCache(tables: Tables, session: string, usage: Usage, estimate: Estimate)
    requires ShortIn(tables, session, Cache(0, 0)) && CacheOf(usage) == Cache(1, 0)
    ensures ShortIn(After(tables, AddCompaction(tables, session, usage, estimate)), session, Cache(1, 0))
  {
    CompactionWidensGap(tables, session, usage, estimate, session, Cache(0, 0));
    assert AddCache(Cache(0, 0), Cache(1, 0)) == Cache(1, 0);
  }

  // ---- Truncating a transcript ----

  lemma {:induction false} EarlierGrows(messages: map<nat, MessageRow>, session: string, i: nat, j: nat)
    requires i <= j
    ensures Earlier(messages, session, i) <= Earlier(messages, session, j)
    decreases j
  {
    if i < j {
      EarlierGrows(messages, session, i, j - 1);
    }
  }

  lemma {:induction false} TruncatedCount(messages: map<nat, MessageRow>, next: map<nat, MessageRow>,
      session: string, keep: real, id: nat)
    requires next == map i | i in messages && !CutOff(messages, session, keep, i) :: messages[i]
    ensures Earlier(next, session, id)
      == if Earlier(messages, session, id) < Retained(keep) then Earlier(messages, session, id) else Retained(keep)
  {
    if id > 0 {
      TruncatedCount(messages, next, session, keep, id - 1);
    }
  }

  /** The session's messages below an id. */
  function Below(messages: map<nat, MessageRow>, session: string, id: nat): set<nat> {
    set i | i in messages && i < id && messages[i].session == session
  }

  lemma {:induction false} EarlierCounts(messages: map<nat, MessageRow>, session: string, id: nat)
    ensures Earlier(messages, session, id) == |Below(messages, session, id)|
  {
    if id == 0 {
      assert Below(messages, session, 0) == {};
    } else {
      EarlierCounts(messages, session, id - 1);
      var before := Below(messages, session, id - 1);
      if id - 1 in messages && messages[id - 1].session == session {
        assert Below(messages, session, id) == before + {id - 1};
      } else {
        assert Below(messages, session, id) == before;
      }
    }
  }

  /** Below any id, a truncated session has as many messages as before up to the limit;
      those it keeps come before those it drops; nobody else loses a message. */
  lemma TruncateKeepsFirst(tables: Tables, session: string, keep: real, limit: nat, id: nat)
    requires limit as real <= keep < limit as real + 1.0 || (keep < 0.0 && limit == 0)
    ensures var next := Step(tables, TruncateMessages(session, keep));
      var had, has := |Below(tables.messages, session, id)|, |Below(next.messages, session, id)|;
      && next.messages.Keys <= tables.messages.Keys
      && (forall i :: i in next.messages ==> next.messages[i] == tables.messages[i])
      && (forall i :: i in tables.messages && tables.messages[i].session != session ==> i in next.messages)
      && (forall i, j | i in next.messages && j in tables.messages && j !in next.messages ::
            tables.messages[i].session == session ==> i < j)
      && has == if had < limit then had else limit
  {
    assert Retained(keep) == limit;
    var next := Step(tables, TruncateMessages(session, keep));
    TruncatedCount(tables.messages, next.messages, session, keep, id);
    EarlierCounts(tables.messages, session, id);
    EarlierCounts(next.messages, session, id);
    forall i, j | i in next.messages && j in tables.messages && j !in next.messages
        && tables.messages[i].session == session
      ensures i < j
    {
      if j <= i {
        EarlierGrows(tables.messages, session, j, i);
      }
    }
  }

  // ---- The tool journal ----

  ghost predicate IsCompleted(tables: Tables, key: ToolKey) {
    key in tables.tools && tables.tools[key].state == Completed
  }

  /** Foreign keys: journal rows refer to sessions and messages that are there, messages
      to sessions; and every id in use has been given out. */
  ghost predicate References(tables: Tables) {
    && (forall key :: key in tables.tools ==> key.session in tables.sessions && key.message in tables.messages)
    && (forall id :: id in tables.messages ==>
          id < tables.nextMessage && tables.messages[id].session in tables.sessions)
  }

  lemma StepKeepsReferences(tables: Tables, s: Statement)
    requires References(tables)
    ensures References(Step(tables, s))
  {}

  lemma ReferencesAllAlong(tables: Tables, run: seq<Statement>)
    requires References(tables)
    ensures forall i :: 0 <= i <= |run| ==> References(At(Step, tables, run, i))
  {
    var any := (t: Tables, s: Statement) => true;
    var sound := (t: Tables) => References(t);
    forall t: Tables, s: Statement | sound(t) && any(t, s)
      ensures sound(Step(t, s))
    {
      StepKeepsReferences(t, s);
    }
    AllAlong(Step, any, sound, tables, run, |run|);
  }

  /** So do lineage rows and receipts. */
  ghost predicate Backed(tables: Tables) {
    && (forall pair :: pair in tables.lineage ==> pair.0 in tables.sessions && pair.1 in tables.sessions)
    && (forall r :: r in tables.receipts ==> r.session in tables.sessions)
  }

  lemma StepKeepsBacked(tables: Tables, s: Statement)
    requires Backed(tables)
    ensures Backed(Step(tables, s))
  {
    match s
    case DeleteSession(session) => WithoutOnly(tables.receipts, {session});
    case SweepKind(stale) => WithoutOnly(tables.receipts, stale * tables.sessions.Keys);
    case SweepPhantoms(stale) =>
      WithoutOnly(tables.receipts, set id | id in stale && Swept(tables, stale, id));
    case _ =>
  }

  lemma BackedAllAlong(tables: Tables, run: seq<Statement>)
    requires Backed(tables)
    ensures forall i :: 0 <= i <= |run| ==> Backed(At(Step, tables, run, i))
  {
    var any := (t: Tables, s: Statement) => true;
    var backed := (t: Tables) => Backed(t);
    forall t: Tables, s: Statement | backed(t) && any(t, s)
      ensures backed(Step(t, s))
    {
      StepKeepsBacked(t, s);
    }
    AllAlong(Step, any, backed, tables, run, |run|);
  }

  /** The id has been given out, and its message is gone. */
  ghost predicate Spent(tables: Tables, id: nat) {
    id < tables.nextMessage && id !in tables.messages
  }

  lemma StepKeepsIds(tables: Tables, s: Statement, id: nat)
    ensures id < tables.nextMessage ==> id < Step(tables, s).nextMessage
    ensures Spent(tables, id) ==> Spent(Step(tables, s), id)
  {}

  lemma IssuedStays(tables: Tables, run: seq<Statement>, n: nat, id: nat)
    requires n <= |run| && id < tables.nextMessage
    ensures id < At(Step, tables, run, n).nextMessage
  {
    var any := (t: Tables, s: Statement) => true;
    var issued := (t: Tables) => id < t.nextMessage;
    forall t: Tables, s: Statement | issued(t) && any(t, s)
      ensures issued(Step(t, s))
    {
      StepKeepsIds(t, s, id);
    }
    AllAlong(Step, any, issued, tables, run, n);
  }

  /** A message is accepted here. */
  ghost predicate Accepts(tables: Tables, s: Statement) {
    s.SaveMessage? && Rows(tables, s) == 1
  }

  lemma AcceptedTakesNext(tables: Tables, s: Statement)
    requires Accepts(tables, s)
    ensures tables.nextMessage in Step(tables, s).messages && tables.nextMessage < Step(tables, s).nextMessage
  {}

  /** An accepted message gets an id below every later one, whatever runs in between. */
  lemma IdsRise(tables: Tables, s: Statement, run: seq<Statement>, n: nat)
    requires Accepts(tables, s) && n <= |run|
    ensures tables.nextMessage in Step(tables, s).messages
    ensures tables.nextMessage < At(Step, Step(tables, s), run, n).nextMessage
  {
    AcceptedTakesNext(tables, s);
    IssuedStays(Step(tables, s), run, n, tables.nextMessage);
  }

  /** An id whose message is gone is never in use again. */
  lemma SpentStays(tables: Tables, run: seq<Statement>, n: nat, id: nat)
    requires n <= |run| && Spent(tables, id)
    ensures Spent(At(Step, tables, run, n), id)
  {
    var any := (t: Tables, s: Statement) => true;
    var spent := (t: Tables) => Spent(t, id);
    forall t: Tables, s: Statement | spent(t) && any(t, s)
      ensures spent(Step(t, s))
    {
      StepKeepsIds(t, s, id);
    }
    AllAlong(Step, any, spent, tables, run, n);
  }

  /** The row's session and message are there. */
  ghost predicate Anchored(tables: Tables, key: ToolKey) {
    key.session in tables.sessions && key.message in tables.messages
  }

  /** The statement removes the row's session, its message's session, or its message. */
  ghost predicate Uproots(tables: Tables, s: Statement, key: ToolKey)
    requires Anchored(tables, key)
  {
    match s
    case DeleteSession(id) => id == key.session || id == tables.messages[key.message].session
    case SweepKind(stale) => key.session in stale || tables.messages[key.message].session in stale
    case SweepPhantoms(stale) =>
      DropPhantoms(tables, stale).Changed? && Swept(tables, stale, key.session)
    case TruncateMessages(id, keep) => CutOff(tables.messages, id, keep, key.message)
    case _ => false
  }

  lemma DeleteUproots(tables: Tables, gone: string, key: ToolKey)
    requires Anchored(tables, key)
    ensures Anchored(Step(tables, DeleteSession(gone)), key) <==> !Uproots(tables, DeleteSession(gone), key)
  {}

  lemma SweepUproots(tables: Tables, stale: set<string>, key: ToolKey)
    requires References(tables) && Anchored(tables, key)
    ensures Anchored(Step(tables, SweepKind(stale)), key) <==> !Uproots(tables, SweepKind(stale), key)
  {}

  lemma PhantomUproots(tables: Tables, stale: set<string>, key: ToolKey)
    requires Anchored(tables, key)
    ensures Anchored(Step(tables, SweepPhantoms(stale)), key) <==> !Uproots(tables, SweepPhantoms(stale), key)
  {}

  lemma TruncateUproots(tables: Tables, session: string, keep: real, key: ToolKey)
    requires Anchored(tables, key)
    ensures Anchored(Step(tables, TruncateMessages(session, keep)), key)
      <==> !Uproots(tables, TruncateMessages(session, keep), key)
  {}

  lemma StaysAnchored(tables: Tables, next: Tables, key: ToolKey)
    requires Anchored(tables, key)
    requires tables.sessions.Keys <= next.sessions.Keys && tables.messages.Keys <= next.messages.Keys
    ensures Anchored(next, key)
  {}

  /** The statements that take neither sessions nor messages away. */
  lemma OnlyAdds(tables: Tables, s: Statement)
    requires !s.DeleteSession? && !s.SweepKind? && !s.SweepPhantoms? && !s.TruncateMessages?
    ensures tables.sessions.Keys <= Step(tables, s).sessions.Keys
    ensures tables.messages.Keys <= Step(tables, s).messages.Keys
  {}

  lemma UprootedIff(tables: Tables, s: Statement, key: ToolKey)
    requires References(tables) && Anchored(tables, key)
    ensures Anchored(Step(tables, s), key) <==> !Uproots(tables, s, key)
  {
    match s
    case DeleteSession(gone) => DeleteUproots(tables, gone, key);
    case SweepKind(stale) => SweepUproots(tables, stale, key);
    case SweepPhantoms(stale) => PhantomUproots(tables, stale, key);
    case TruncateMessages(session, keep) => TruncateUproots(tables, session, keep, key);
    case _ =>
      OnlyAdds(tables, s);
      StaysAnchored(tables, Step(tables, s), key);
  }

  lemma CompletedStays(tables: Tables, s: Statement, key: ToolKey)
    requires IsCompleted(tables, key)
    ensures Anchored(Step(tables, s), key) ==> IsCompleted(Step(tables, s), key)
  {}

  /** A completed receipt stays completed through a statement exactly when its session
      and its message stay; only a delete or sweep of one of their sessions and a
      truncation that cuts the message off take them away. */
  lemma StepKeepsCompleted(tables: Tables, s: Statement, key: ToolKey)
    requires References(tables) && IsCompleted(tables, key)
    ensures IsCompleted(Step(tables, s), key) <==> Anchored(Step(tables, s), key)
    ensures IsCompleted(Step(tables, s), key) <==> !Uproots(tables, s, key)
  {
    UprootedIff(tables, s, key);
    CompletedStays(tables, s, key);
    StepKeepsReferences(tables, s);
  }

  ghost function CompletedAt(key: ToolKey): Tables -> bool {
    (tables: Tables) => IsCompleted(tables, key)
  }

  ghost function AnchoredAt(key: ToolKey): Tables -> bool {
    (tables: Tables) => Anchored(tables, key)
  }

  /** Over a whole run, a completed receipt is never lost or reopened exactly when its
      session and its message are there all along. */
  lemma CompletedForGood(tables: Tables, run: seq<Statement>, key: ToolKey, n: nat)
    requires n <= |run| && References(tables) && IsCompleted(tables, key)
    ensures Throughout(Step, CompletedAt(key), tables, run, n) <==> Throughout(Step, AnchoredAt(key), tables, run, n)
  {
    forall t: Tables, s: Statement | IsCompleted(t, key) && Anchored(Step(t, s), key)
      ensures IsCompleted(Step(t, s), key)
    {
      CompletedStays(t, s, key);
    }
    ReferencesAllAlong(tables, run);
    Together(Step, CompletedAt(key), AnchoredAt(key), tables, run, n);
  }
}
