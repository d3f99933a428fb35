/** What the evidence writer owes the disk: every record, row and snapshot that it was
    handed while open, in order, and each snapshot once. */
module EvidenceOrder {
  import opened Prelude
  import opened Runs
  import opened TurnEvidence

  /** The disk once everything queued has been appended. */
  function Owed(s: State): Disk {
    WriteAll(s.disk, s.queue)
  }

  lemma WriteOneMore(disk: Disk, lines: seq<Line>, line: Line)
    ensures WriteAll(disk, lines + [line]) == Write(WriteAll(disk, lines), line)
  {
    assert (lines + [line])[..|lines|] == lines;
  }

  lemma {:induction false} WriteFirst(disk: Disk, line: Line, rest: seq<Line>)
    ensures WriteAll(disk, [line] + rest) == WriteAll(Write(disk, line), rest)
  {
    if rest == [] {
      assert [line] + rest == [] + [line];
      WriteOneMore(disk, [], line);
    } else {
      var front, last := rest[..|rest| - 1], rest[|rest| - 1];
      assert [line] + rest == ([line] + front) + [last];
      WriteFirst(disk, line, front);
      WriteOneMore(disk, [line] + front, last);
    }
  }

  lemma {:induction false} WriteRows(disk: Disk, lines: seq<Line>, rows: seq<Keys>)
    ensures WriteAll(disk, lines + IoLines(rows)) == WriteAll(disk, lines).(io := WriteAll(disk, lines).io + rows)
    decreases |rows|
  {
    if rows == [] {
      assert lines + [] == lines;
    } else {
      Nest(lines, [IoLine(rows[0])], IoLines(rows[1..]));
      WriteRows(disk, lines + [IoLine(rows[0])], rows[1..]);
      WriteOneMore(disk, lines, IoLine(rows[0]));
      assert rows == [rows[0]] + rows[1..];
      Nest(WriteAll(disk, lines).io, [rows[0]], rows[1..]);
    }
  }

  // ---- Event by event ----

  /** The snapshots that a record brings along: one, if its hash has none yet and the live
      manifest carries a hash that has none. */
  function Brought(s: State, hash: string, live: Option<string>): seq<string> {
    if hash !in s.snapshotted && live.Some? && live.value != "" && live.value !in s.snapshotted then [live.value]
    else []
  }

  /** A record handed to an open writer is owed to the disk, behind at most one snapshot. */
  lemma RecordOwed(s: State, keys: Keys, hash: string, live: Option<string>)
    requires s.up && !s.closed
    ensures var t := Step(s, Record(keys, hash, live));
      && Owed(t) == Owed(s).(records := Owed(s).records + [keys],
           manifests := Owed(s).manifests + Brought(s, hash, live))
      && t.disk == s.disk && t.pending == s.pending && t.up && !t.closed
      && (forall h :: h in t.snapshotted <==> h in s.snapshotted || h in Brought(s, hash, live))
  {
    var t := if hash in s.snapshotted then s else Snapshot(s, live);
    if live.Some? {
      WriteOneMore(s.disk, s.queue, ManifestLine(live.value));
    }
    WriteOneMore(s.disk, t.queue, RecordLine(keys));
  }

  /** A turn that is pending leaves the map, and its own row is owed; one that is not
      changes nothing. */
  lemma SettledOwed(s: State, a: seq<Keys>, keys: Keys, b: seq<Keys>, e: Event)
    requires s.up && !s.closed && s.pending == a + [keys] + b && forall k :: k in a ==> k.turn != keys.turn
    requires e == Sink(Some(keys.turn)) || e == EndTurn(keys.turn)
    ensures Step(s, e) == s.(pending := a + b, queue := s.queue + [IoLine(keys)])
    ensures Owed(Step(s, e)) == Owed(s).(io := Owed(s).io + [keys])
  {
    FirstOf(a, keys, b);
    assert [keys][1..] == [];
    assert IoLines([keys]) == [IoLine(keys)] + [] == [IoLine(keys)];
    WriteRows(s.disk, s.queue, [keys]);
  }

  lemma {:induction false} FirstOf(a: seq<Keys>, keys: Keys, b: seq<Keys>)
    requires forall k :: k in a ==> k.turn != keys.turn
    ensures Find(a + [keys] + b, keys.turn) == Some(keys) && Remove(a + [keys] + b, keys.turn) == a + b
  {
    if a != [] {
      assert a[0] in a && (a + [keys] + b)[1..] == a[1..] + [keys] + b;
      FirstOf(a[1..], keys, b);
    }
  }

  lemma {:induction false} NotFound(rows: seq<Keys>, id: string)
    requires forall k :: k in rows ==> k.turn != id
    ensures Find(rows, id).None?
  {
    if rows != [] {
      assert rows[0] in rows;
      NotFound(rows[1..], id);
    }
  }

  lemma UnknownIgnored(s: State, e: Event, id: string)
    requires forall k :: k in s.pending ==> k.turn != id
    requires e in {Sink(Some(id)), EndTurn(id), Sink(None)}
    ensures Step(s, e) == s
  {
    NotFound(s.pending, id);
  }

  /** A turn that begins is pending, behind those that already are, until it is settled. */
  lemma BegunPending(s: State, id: string, session: string)
    requires s.up
    ensures var t := Step(s, Begin(id, session));
      t.pending == s.pending + [Keys(session, id)] && t.queue == s.queue && t.disk == s.disk && id in t.minted
  {}

  /** A sweep leaves none pending, and owes the row of each, in order. */
  lemma SweptOwed(s: State)
    requires s.up && !s.closed
    ensures Step(s, SettleAll).pending == [] && Step(s, SettleAll).disk == s.disk && !Step(s, SettleAll).closed
    ensures Owed(Step(s, SettleAll)) == Owed(s).(io := Owed(s).io + s.pending)
  {
    WriteRows(s.disk, s.queue, s.pending);
  }

  /** An append only pays what is owed; a failed one loses just the line. */
  lemma DrainPays(s: State)
    requires s.up && s.queue != []
    ensures Owed(Step(s, Drain(true))) == Owed(s) && Step(s, Drain(true)).queue == s.queue[1..]
    ensures Step(s, Drain(false)).disk == s.disk && Step(s, Drain(false)).queue == s.queue[1..]
    ensures Step(s, Drain(false)).failures == s.failures + 1 && Step(s, Drain(true)).failures == s.failures
  {
    assert s.queue == [s.queue[0]] + s.queue[1..];
    WriteFirst(s.disk, s.queue[0], s.queue[1..]);
  }

  /** A closed writer takes nothing more. */
  lemma ClosedTakesNothing(s: State, e: Event)
    requires s.up && s.closed && !e.Crash? && e != Drain(false)
    ensures Owed(Step(s, e)) == Owed(s) && Step(s, e).closed
  {
    if e.Drain? && s.queue != [] {
      DrainPays(s);
    }
  }

  /** A crash loses what was queued and pending, and nothing on disk; a boot starts afresh
      with the rows of its repair. */
  lemma CrashAndBoot(s: State, listing: Option<seq<EvidenceFile>>)
    requires s.up
    ensures var crashed := Step(s, Crash);
      && !crashed.up && crashed.disk == s.disk && crashed.queue == [] && crashed.pending == []
      && var booted := Step(crashed, Boot(listing));
         && booted.up && !booted.closed && booted.disk == s.disk && booted.pending == []
         && booted.snapshotted == {} && booted.failures == 0 && booted.minted == {}
         && Owed(booted) == s.disk.(io := s.disk.io + Backfill(listing))
  {
    WriteRows(s.disk, [], Backfill(listing));
    assert [] + IoLines(Backfill(listing)) == IoLines(Backfill(listing));
  }

  // ---- Whole runs ----

  /** No crash and no failed append. */
  predicate Smooth(e: Event) {
    !e.Crash? && e != Drain(false)
  }

  predicate ClosedBy(run: seq<Event>, n: nat)
    requires n <= |run|
  {
    exists i :: 0 <= i < n && run[i].Close?
  }

  /** The records handed over before the writer was closed. */
  function Handed(run: seq<Event>, n: nat): seq<Keys>
    requires n <= |run|
  {
    if n == 0 then []
    else if run[n - 1].Record? && !ClosedBy(run, n - 1) then Handed(run, n - 1) + [run[n - 1].keys]
    else Handed(run, n - 1)
  }

  lemma StepOwesRecords(s: State, e: Event)
    requires s.up && Smooth(e)
    ensures Step(s, e).up && (Step(s, e).closed <==> s.closed || e.Close?)
    ensures Owed(Step(s, e)).records == Owed(s).records + if e.Record? && !s.closed then [e.keys] else []
  {
    match e
    case Record(keys, hash, live) => if !s.closed { RecordOwed(s, keys, hash, live); }
    case Drain(_) => if s.queue != [] { DrainPays(s); }
    case Sink(turn) => if turn.Some? { SettleOwes(s, turn.value); }
    case EndTurn(id) => SettleOwes(s, id);
    case SettleAll => WriteRows(s.disk, s.queue, s.pending);
    case _ =>
  }

  lemma SettleOwes(s: State, id: string)
    ensures Owed(Settle(s, id)).records == Owed(s).records && Owed(Settle(s, id)).manifests == Owed(s).manifests
  {
    var entry := Find(s.pending, id);
    if entry.Some? {
      WriteRows(s.disk, s.queue, [entry.value]);
    }
  }

  /** Over every run without a crash or a failed append, the records owed to the disk are
      those owed at its start and then those handed over while open, in order. */
  lemma {:induction false} RecordsInOrder(start: State, run: seq<Event>, n: nat)
    requires n <= |run| && start.up && !start.closed && forall i :: 0 <= i < n ==> Smooth(run[i])
    ensures At(Step, start, run, n).up && (At(Step, start, run, n).closed <==> ClosedBy(run, n))
    ensures Owed(At(Step, start, run, n)).records == Owed(start).records + Handed(run, n)
  {
    if n > 0 {
      RecordsInOrder(start, run, n - 1);
      StepOwesRecords(At(Step, start, run, n - 1), run[n - 1]);
    }
  }

  /** After a boot and any such run, sweep, close and drain leave the records on disk that
      the boot found and then those handed over since, in order. */
  lemma RecordsReachDisk(s: State, listing: Option<seq<EvidenceFile>>, run: seq<Event>)
    requires !s.up && forall e :: e in run ==> Smooth(e)
    ensures var t := End(Step, Step(s, Boot(listing)), run);
      var swept := Step(Step(t, SettleAll), Close);
      End(Step, swept, Drains(|swept.queue|)).disk.records == s.disk.records + Handed(run, |run|)
  {
    var booted := Step(s, Boot(listing));
    var t := End(Step, booted, run);
    WriteRows(s.disk, [], Backfill(listing));
    assert [] + IoLines(Backfill(listing)) == IoLines(Backfill(listing));
    RecordsInOrder(booted, run, |run|);
    StepOwesRecords(t, SettleAll);
    StepOwesRecords(Step(t, SettleAll), Close);
    DrainedIsRun(Step(Step(t, SettleAll), Close));
  }

  // ---- Failures ----

  /** What an event adds to the failure count: a line that could not be appended, or a
      manifest that could not be built for a hash not noted yet. */
  function Failed(s: State, e: Event): nat {
    match e
    case Drain(ok) => if !ok && |s.queue| > 0 then 1 else 0
    case Record(_, hash, live) => if !s.closed && hash !in s.snapshotted && live in {None, Some("")} then 1 else 0
    case _ => 0
  }

  lemma FailuresCounted(s: State, e: Event)
    requires s.up
    ensures Step(s, e).failures == if e.Crash? then 0 else s.failures + Failed(s, e)
    ensures Step(s, e).up <==> !e.Crash?
  {}

  function FailedBy(start: State, run: seq<Event>, n: nat): nat
    requires n <= |run|
  {
    if n == 0 then 0 else FailedBy(start, run, n - 1) + Failed(At(Step, start, run, n - 1), run[n - 1])
  }

  /** Nothing else is counted, and nothing that failed goes uncounted. */
  lemma {:induction false} FailuresAddUp(start: State, run: seq<Event>, n: nat)
    requires n <= |run| && start.up && forall i :: 0 <= i < n ==> !run[i].Crash?
    ensures At(Step, start, run, n).up
    ensures At(Step, start, run, n).failures == start.failures + FailedBy(start, run, n)
  {
    if n > 0 {
      FailuresAddUp(start, run, n - 1);
      FailuresCounted(At(Step, start, run, n - 1), run[n - 1]);
    }
  }

  // ---- Snapshots ----

  predicate Distinct(hashes: seq<string>) {
    forall i, j :: 0 <= i < j < |hashes| ==> hashes[i] != hashes[j]
  }

  /** Beyond `base`, the snapshots owed are just those noted, each once. */
  ghost predicate SnapshotsOnce(s: State, base: seq<string>) {
    && base <= Owed(s).manifests
    && Distinct(Owed(s).manifests[|base|..])
    && forall h :: h in Owed(s).manifests[|base|..] <==> h in s.snapshotted
  }

  lemma OneMoreSnapshot(s: State, t: State, base: seq<string>, brought: seq<string>)
    requires SnapshotsOnce(s, base) && Owed(t).manifests == Owed(s).manifests + brought && |brought| <= 1
    requires forall h :: h in t.snapshotted <==> h in s.snapshotted || h in brought
    requires forall h :: h in brought ==> h !in s.snapshotted
    ensures SnapshotsOnce(t, base)
  {
    var since := Owed(s).manifests[|base|..];
    assert Owed(t).manifests[|base|..] == since + brought;
    assert forall i :: 0 <= i < |since| ==> since[i] in since;
    if brought != [] {
      assert brought[0] in brought;
    }
  }

  lemma StepSnapshots(s: State, e: Event, base: seq<string>)
    requires s.up && Smooth(e) && SnapshotsOnce(s, base)
    ensures SnapshotsOnce(Step(s, e), base)
  {
    match e
    case Record(keys, hash, live) =>
      if !s.closed {
        RecordOwed(s, keys, hash, live);
        OneMoreSnapshot(s, Step(s, e), base, Brought(s, hash, live));
      }
    case Drain(_) => if s.queue != [] { DrainPays(s); }
    case Sink(turn) => if turn.Some? { SettleOwes(s, turn.value); }
    case EndTurn(id) => SettleOwes(s, id);
    case SettleAll => WriteRows(s.disk, s.queue, s.pending);
    case _ =>
  }

  /** In one life of the writer no manifest is written twice, and the ones noted are those
      that have been written or are about to be. */
  lemma {:induction false} SnapshotsInOrder(s: State, listing: Option<seq<EvidenceFile>>, run: seq<Event>, n: nat)
    requires !s.up && n <= |run| && forall i :: 0 <= i < n ==> Smooth(run[i])
    ensures At(Step, Step(s, Boot(listing)), run, n).up
    ensures SnapshotsOnce(At(Step, Step(s, Boot(listing)), run, n), s.disk.manifests)
  {
    var booted := Step(s, Boot(listing));
    if n == 0 {
      WriteRows(s.disk, [], Backfill(listing));
      assert [] + IoLines(Backfill(listing)) == IoLines(Backfill(listing));
      assert Owed(booted).manifests[|s.disk.manifests|..] == [];
    } else {
      SnapshotsInOrder(s, listing, run, n - 1);
      StepOwesRecords(At(Step, booted, run, n - 1), run[n - 1]);
      StepSnapshots(At(Step, booted, run, n - 1), run[n - 1], s.disk.manifests);
    }
  }

  // ---- What a repair reads ----

  /** The keys of the lines that have any, one after the other; the others are passed over. */
  lemma {:induction false} LinesJoin(a: seq<Option<Keys>>, b: seq<Option<Keys>>, keys: Keys)
    ensures KeysOfLines(a + b) == KeysOfLines(a) + KeysOfLines(b)
    ensures KeysOfLines([Some(keys)]) == [keys] && KeysOfLines([None]) == []
    decreases |b|
  {
    var none: seq<Option<Keys>> := [None];
    assert [Some(keys)][..0] == [] && none[..0] == [];
    if b == [] {
      assert a + b == a;
    } else {
      var n := |b| - 1;
      LinesJoin(a, b[..n], keys);
      assert (a + b)[..|a + b| - 1] == a + b[..n];
    }
  }

  /** And of the files of the kind that could be read, or of all. */
  lemma {:induction false} FilesJoin(a: seq<EvidenceFile>, b: seq<EvidenceFile>, kind: FileKind, all: bool,
      file: EvidenceFile)
    ensures KeysIn(a + b, kind, all) == KeysIn(a, kind, all) + KeysIn(b, kind, all)
    ensures KeysIn([file], kind, all) == if file.kind == kind && (all || file.read) then KeysOfLines(file.lines) else []
    decreases |b|
  {
    assert [file][..0] == [];
    if b == [] {
      assert a + b == a;
    } else {
      var n := |b| - 1;
      FilesJoin(a, b[..n], kind, all, file);
      assert (a + b)[..|a + b| - 1] == a + b[..n];
    }
  }

  /** The first record of a turn that is not covered. */
  ghost predicate Unmet(covered: set<string>, records: seq<Keys>, keys: Keys) {
    && keys.turn !in covered
    && exists i :: 0 <= i < |records| && records[i] == keys && forall j :: 0 <= j < i ==> records[j].turn != keys.turn
  }

  lemma UnmetFirst(covered: set<string>, records: seq<Keys>, keys: Keys)
    requires records != []
    ensures Unmet(covered, records, keys) <==>
      (records[0] == keys && keys.turn !in covered)
      || (records[0].turn != keys.turn && Unmet(covered, records[1..], keys))
  {
    var rest := records[1..];
    if Unmet(covered, records, keys) && records[0] != keys {
      var i :| 0 <= i < |records| && records[i] == keys && forall j :: 0 <= j < i ==> records[j].turn != keys.turn;
      assert rest[i - 1] == keys && forall j :: 0 <= j < i - 1 ==> rest[j] == records[j + 1];
    }
    if records[0].turn != keys.turn && Unmet(covered, rest, keys) {
      var i :| 0 <= i < |rest| && rest[i] == keys && forall j :: 0 <= j < i ==> rest[j].turn != keys.turn;
      assert records[i + 1] == keys && forall j :: 1 <= j < i + 1 ==> records[j] == rest[j - 1];
    }
  }

  /** A repair adds rows for just these, each under the session of that first record. */
  lemma {:induction false} OrphansMean(covered: set<string>, records: seq<Keys>, keys: Keys)
    ensures keys in Orphans(covered, records) <==> Unmet(covered, records, keys)
    decreases |records|
  {
    if records != [] {
      UnmetFirst(covered, records, keys);
      if records[0].turn in covered {
        OrphansMean(covered, records[1..], keys);
      } else {
        OrphansMean(covered + {records[0].turn}, records[1..], keys);
        assert Unmet(covered + {records[0].turn}, records[1..], keys) <==>
          records[0].turn != keys.turn && Unmet(covered, records[1..], keys);
      }
    }
  }
}
