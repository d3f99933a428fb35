/** The check that a durable session can be resumed: one forward pass with index
    jumps, against the condition it decides. */
module RecoveryTarget {
  import opened Prelude

  datatype Role = User | Assistant | Other

  datatype Block = ToolUse(id: string) | ToolResult(toolUseId: string) | Text

  datatype Row = Row(id: int, role: Role, content: seq<Block>)

  datatype ToolState = Started | Completed | Interrupted | Unknown

  datatype Execution = Execution(message: int, toolUse: string, state: ToolState, result: Option<Block>)

  type Key = (int, string)

  function KeyOf(e: Execution): Key {
    (e.message, e.toolUse)
  }

  /** What the store answers; a failed read throws. */
  datatype Store = Store(hasSession: Result<bool, string>, rows: Result<seq<Row>, string>,
    executions: Result<seq<Execution>, string>)

  // ---- The condition ----

  ghost predicate IntendedBy(row: Row, key: Key) {
    row.role == Assistant && row.id == key.0 && ToolUse(key.1) in row.content
  }

  /** `key` is a stored tool_use intent. */
  ghost predicate Intended(rows: seq<Row>, key: Key) {
    exists i :: 0 <= i < |rows| && IntendedBy(rows[i], key)
  }

  ghost predicate UniqueKeys(executions: seq<Execution>) {
    forall i, j :: 0 <= i < j < |executions| ==> KeyOf(executions[i]) != KeyOf(executions[j])
  }

  ghost predicate Receipted(executions: seq<Execution>, key: Key, e: Execution) {
    e in executions && KeyOf(e) == key
  }

  /** Rows i + 1 to k all belong to the user side. */
  ghost predicate UserRun(rows: seq<Row>, i: nat, k: int) {
    i < k < |rows| && forall j :: i < j <= k ==> rows[j].role != Assistant
  }

  /** A tool_result for `id` in the run of user rows right behind row `i`. */
  ghost predicate AnsweredInRun(rows: seq<Row>, i: nat, id: string) {
    exists k :: UserRun(rows, i, k) && ToolResult(id) in rows[k].content
  }

  ghost predicate IsSettled(e: Execution) {
    e.state in {Completed, Interrupted} && e.result.Some?
  }

  /** The tool_use `id` of row `i`: its receipt's result, if any, answers it, and it is
      answered in its own run or by a settled receipt that carries a result. */
  ghost predicate Resolved(rows: seq<Row>, executions: seq<Execution>, i: nat, id: string)
    requires i < |rows|
  {
    && (forall e :: Receipted(executions, (rows[i].id, id), e) && e.result.Some? ==> e.result.value == ToolResult(id))
    && (AnsweredInRun(rows, i, id)
        || exists e :: Receipted(executions, (rows[i].id, id), e) && IsSettled(e))
  }

  ghost predicate RowResolved(rows: seq<Row>, executions: seq<Execution>, i: nat)
    requires i < |rows|
  {
    rows[i].role == Assistant ==> forall id :: ToolUse(id) in rows[i].content ==> Resolved(rows, executions, i, id)
  }

  /** Every receipt belongs to a stored intent and its effect is known. */
  ghost predicate Journaled(rows: seq<Row>, executions: seq<Execution>) {
    forall e :: e in executions ==> Intended(rows, KeyOf(e)) && e.state != Started && e.state != Unknown
  }

  ghost predicate Recoverable(rows: seq<Row>, executions: seq<Execution>) {
    && (exists i :: 0 <= i < |rows| && rows[i].role == User)
    && Journaled(rows, executions) && UniqueKeys(executions)
    && forall i :: 0 <= i < |rows| ==> RowResolved(rows, executions, i)
  }

  // ---- The pass ----

  method CollectIntents(rows: seq<Row>) returns (keys: set<Key>)
    ensures forall key :: key in keys <==> Intended(rows, key)
  {
    keys := {};
    for i := 0 to |rows|
      invariant forall key :: key in keys <==> Intended(rows[..i], key)
    {
      assert rows[..i + 1] == rows[..i] + [rows[i]];
      forall key
        ensures Intended(rows[..i + 1], key) <==>
          Intended(rows[..i], key) || IntendedBy(rows[i], key)
      {
        OneMoreRow(rows, i, key);
      }
      if rows[i].role == Assistant {
        var content := rows[i].content;
        for k := 0 to |content|
          invariant forall key :: key in keys <==>
            Intended(rows[..i], key) || (rows[i].id == key.0 && ToolUse(key.1) in content[..k])
        {
          assert content[..k + 1] == content[..k] + [content[k]];
          if content[k].ToolUse? {
            keys := keys + {(rows[i].id, content[k].id)};
          }
        }
        assert content[..|content|] == content;
      }
    }
    assert rows[..|rows|] == rows;
  }

  lemma OneMoreRow(rows: seq<Row>, i: nat, key: Key)
    requires i < |rows|
    ensures Intended(rows[..i + 1], key) <==>
      Intended(rows[..i], key) || IntendedBy(rows[i], key)
  {
    var more := rows[..i + 1];
    if k :| 0 <= k < |more| && IntendedBy(more[k], key) {
      assert k < i ==> rows[..i][k] == more[k];
    }
    if k :| 0 <= k < i && IntendedBy(rows[..i][k], key) {
      assert more[k] == rows[..i][k];
    }
    assert more[i] == rows[i];
  }

  /** The receipts by key; a later one of the same key replaces the earlier. */
  function ByKey(executions: seq<Execution>): map<Key, Execution> {
    if executions == [] then map[] else
    var last := executions[|executions| - 1];
    ByKey(executions[..|executions| - 1])[KeyOf(last) := last]
  }

  /** Its keys are the executions' keys, and each key holds one of its executions. */
  lemma {:induction false} ByKeyIndexed(executions: seq<Execution>)
    ensures forall i :: 0 <= i < |executions| ==> KeyOf(executions[i]) in ByKey(executions)
    ensures forall key :: key in ByKey(executions) ==>
      ByKey(executions)[key] in executions && KeyOf(ByKey(executions)[key]) == key
  {
    if executions != [] {
      var n := |executions| - 1;
      ByKeyIndexed(executions[..n]);
      assert executions == executions[..n] + [executions[n]];
      assert forall i :: 0 <= i < n ==> executions[i] == executions[..n][i];
    }
  }

  lemma UniqueLast(executions: seq<Execution>)
    requires executions != []
    ensures var n := |executions| - 1;
      UniqueKeys(executions) <==> UniqueKeys(executions[..n]) && KeyOf(executions[n]) !in ByKey(executions[..n])
  {
    var n := |executions| - 1;
    var front := executions[..n];
    ByKeyIndexed(front);
    assert forall i :: 0 <= i < n ==> executions[i] == front[i];
    if KeyOf(executions[n]) in ByKey(front) {
      var e := ByKey(front)[KeyOf(executions[n])];
      var i :| 0 <= i < n && front[i] == e;
    }
  }

  /** The map is as large as the list exactly when the keys are unique. */
  lemma {:induction false} ByKeySize(executions: seq<Execution>)
    ensures |ByKey(executions)| <= |executions|
    ensures |ByKey(executions)| == |executions| <==> UniqueKeys(executions)
  {
    if executions != [] {
      ByKeySize(executions[..|executions| - 1]);
      UniqueLast(executions);
    }
  }

  lemma ByKeyHolds(executions: seq<Execution>)
    ensures forall key :: key in ByKey(executions) <==> exists e :: Receipted(executions, key, e)
    ensures forall key :: key in ByKey(executions) ==> Receipted(executions, key, ByKey(executions)[key])
  {
    ByKeyIndexed(executions);
    forall key, e | Receipted(executions, key, e)
      ensures key in ByKey(executions)
    {
      var i :| 0 <= i < |executions| && executions[i] == e;
    }
    assert forall key :: key in ByKey(executions) ==> Receipted(executions, key, ByKey(executions)[key]);
  }

  /** How many content blocks the first `n` rows have. */
  function Blocks(rows: seq<Row>, n: nat): nat
    requires n <= |rows|
  {
    if n == 0 then 0 else Blocks(rows, n - 1) + |rows[n - 1].content|
  }

  /** The tool_results of the user rows behind row `index`, and where they end. Every
      block in between is read once. */
  method CanonicalRun(rows: seq<Row>, index: nat) returns (canonical: set<string>, next: nat, ghost scanned: nat)
    requires index < |rows|
    ensures index < next <= |rows| && (next < |rows| ==> rows[next].role == Assistant)
    ensures forall j :: index < j < next ==> rows[j].role != Assistant
    ensures forall id :: id in canonical <==> AnsweredInRun(rows, index, id)
    ensures scanned == Blocks(rows, next) - Blocks(rows, index + 1)
  {
    canonical, next, scanned := {}, index + 1, 0;
    while next < |rows| && rows[next].role != Assistant
      invariant index < next <= |rows|
      invariant forall j :: index < j < next ==> rows[j].role != Assistant
      invariant forall id :: id in canonical <==> exists k :: index < k < next && ToolResult(id) in rows[k].content
      invariant scanned == Blocks(rows, next) - Blocks(rows, index + 1)
    {
      var content := rows[next].content;
      for b := 0 to |content|
        invariant forall id :: id in canonical <==>
          ToolResult(id) in content[..b] || exists k :: index < k < next && ToolResult(id) in rows[k].content
        invariant scanned == Blocks(rows, next) - Blocks(rows, index + 1) + b
      {
        scanned := scanned + 1;
        assert content[..b + 1] == content[..b] + [content[b]];
        if content[b].ToolResult? {
          canonical := canonical + {content[b].toolUseId};
        }
      }
      assert content[..|content|] == content;
      next := next + 1;
    }
  }

  /** What the inner loop decides for one tool_use block. */
  predicate BlockPasses(receipts: map<Key, Execution>, canonical: set<string>, key: Key) {
    && (key in receipts && receipts[key].result.Some? ==> receipts[key].result.value == ToolResult(key.1))
    && (key.1 in canonical
        || (key in receipts && receipts[key].state in {Completed, Interrupted} && receipts[key].result.Some?))
  }

  method RowPasses(row: Row, receipts: map<Key, Execution>, canonical: set<string>)
      returns (ok: bool, ghost scanned: nat)
    ensures ok <==> forall id :: ToolUse(id) in row.content ==> BlockPasses(receipts, canonical, (row.id, id))
    ensures scanned <= |row.content|
  {
    scanned := 0;
    for b := 0 to |row.content|
      invariant forall id :: ToolUse(id) in row.content[..b] ==> BlockPasses(receipts, canonical, (row.id, id))
      invariant scanned == b
    {
      scanned := scanned + 1;
      assert row.content[..b + 1] == row.content[..b] + [row.content[b]];
      if row.content[b].ToolUse? {
        var key := (row.id, row.content[b].id);
        if key in receipts && receipts[key].result.Some? && receipts[key].result.value != ToolResult(key.1) {
          return false, scanned;
        }
        if key.1 !in canonical {
          if key !in receipts || receipts[key].state !in {Completed, Interrupted} || receipts[key].result.None? {
            return false, scanned;
          }
        }
      }
    }
    assert row.content[..|row.content|] == row.content;
    return true, scanned;
  }

  lemma PassesMeansResolved(rows: seq<Row>, executions: seq<Execution>, i: nat, canonical: set<string>, id: string)
    requires i < |rows| && UniqueKeys(executions)
    requires id in canonical <==> AnsweredInRun(rows, i, id)
    ensures BlockPasses(ByKey(executions), canonical, (rows[i].id, id)) <==> Resolved(rows, executions, i, id)
  {
    var key := (rows[i].id, id);
    ByKeyHolds(executions);
    forall e, f | Receipted(executions, key, e) && Receipted(executions, key, f)
      ensures e == f
    {
      var a :| 0 <= a < |executions| && executions[a] == e;
      var b :| 0 <= b < |executions| && executions[b] == f;
      assert a < b || b < a || a == b;
    }
  }

  lemma RowMeans(rows: seq<Row>, executions: seq<Execution>, i: nat, canonical: set<string>)
    requires i < |rows| && rows[i].role == Assistant && UniqueKeys(executions)
    requires forall id :: id in canonical <==> AnsweredInRun(rows, i, id)
    ensures RowResolved(rows, executions, i) <==>
      forall id :: ToolUse(id) in rows[i].content ==> BlockPasses(ByKey(executions), canonical, (rows[i].id, id))
  {
    forall id
      ensures BlockPasses(ByKey(executions), canonical, (rows[i].id, id)) <==> Resolved(rows, executions, i, id)
    {
      PassesMeansResolved(rows, executions, i, canonical, id);
    }
  }

  /** The forward pass: `index` jumps to the last row of each run, and no content block
      is read twice. */
  method AllResolved(rows: seq<Row>, executions: seq<Execution>, receipts: map<Key, Execution>)
      returns (ok: bool, ghost scanned: nat)
    requires UniqueKeys(executions) && receipts == ByKey(executions)
    ensures ok <==> forall i :: 0 <= i < |rows| ==> RowResolved(rows, executions, i)
    ensures scanned <= Blocks(rows, |rows|)
  {
    var index := 0;
    scanned := 0;
    while index < |rows|
      invariant 0 <= index <= |rows| && scanned <= Blocks(rows, index)
      invariant forall i :: 0 <= i < index ==> RowResolved(rows, executions, i)
    {
      if rows[index].role != Assistant {
        index := index + 1;
      } else {
        var canonical, next, inRun := CanonicalRun(rows, index);
        var passes, inRow := RowPasses(rows[index], receipts, canonical);
        scanned := scanned + inRun + inRow;
        BlocksGrow(rows, next, |rows|);
        RowMeans(rows, executions, index, canonical);
        if !passes {
          return false, scanned;
        }
        index := next - 1;
        index := index + 1;
      }
    }
    return true, scanned;
  }

  lemma {:induction false} BlocksGrow(rows: seq<Row>, i: nat, j: nat)
    requires i <= j <= |rows|
    ensures Blocks(rows, i) <= Blocks(rows, j)
    decreases j
  {
    if i < j {
      BlocksGrow(rows, i, j - 1);
    }
  }

  method HasNativeRecoveryTarget(store: Option<Store>, sessionId: Option<string>) returns (found: bool)
    ensures found <==>
      && store.Some? && sessionId.Some? && sessionId.value != ""
      && store.value.hasSession == Success(true) && store.value.rows.Success? && store.value.executions.Success?
      && Recoverable(store.value.rows.value, store.value.executions.value)
  {
    if store.None? || sessionId.None? || sessionId.value == "" {
      return false;
    }
    if store.value.hasSession != Success(true) || store.value.rows.Failure? {
      return false;
    }
    var rows := store.value.rows.value;
    if !exists i :: 0 <= i < |rows| && rows[i].role == User {
      return false;
    }
    if store.value.executions.Failure? {
      return false;
    }
    var executions := store.value.executions.value;
    var intents := CollectIntents(rows);
    if exists e :: e in executions && (KeyOf(e) !in intents || e.state == Started || e.state == Unknown) {
      return false;
    }
    var receipts := ByKey(executions);
    ByKeySize(executions);
    if |receipts| != |executions| {
      return false;
    }
    ghost var scanned;
    found, scanned := AllResolved(rows, executions, receipts);
  }
}
