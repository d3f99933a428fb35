/** Turn evidence across crashes: minted turns are settled once, rows go through a
    first-in first-out write queue, and a boot repairs what a crash orphaned. */
module TurnEvidence {
  import opened Prelude
  import opened Runs

  /** The join keys of a line: whose turn it is evidence of. */
  datatype Keys = Keys(session: string, turn: string)

  datatype Line = RecordLine(keys: Keys) | IoLine(keys: Keys) | ManifestLine(hash: string)

  datatype Disk = Disk(records: seq<Keys>, io: seq<Keys>, manifests: seq<string>)

  datatype FileKind = RecordsFile | IoFile | OtherFile

  /** A file of the evidence directory: the join keys of its lines, where a line has
      any, and whether a repair can read it. */
  datatype EvidenceFile = EvidenceFile(kind: FileKind, lines: seq<Option<Keys>>, read: bool)

  /** One host process, or none, over the evidence on disk. `pending` is an
      insertion-ordered map; `minted` and `seen` are for reasoning only: the turns of
      this process, and every turn identifier used so far. */
  datatype State = State(up: bool, pending: seq<Keys>, queue: seq<Line>, closed: bool, snapshotted: set<string>,
    failures: nat, disk: Disk, minted: set<string>, seen: set<string>, named: set<Keys>)

  datatype Event =
    | Begin(id: string, session: string)
    | Sink(turn: Option<string>)
    | EndTurn(id: string)
    | SettleAll
    | Record(keys: Keys, hash: string, live: Option<string>)
    | Drain(ok: bool)
    | Close
    | Crash
    | Boot(listing: Option<seq<EvidenceFile>>)

  // ---- The pending map ----

  function Find(rows: seq<Keys>, id: string): Option<Keys> {
    if rows == [] then None else if rows[0].turn == id then Some(rows[0]) else Find(rows[1..], id)
  }

  function Remove(rows: seq<Keys>, id: string): seq<Keys> {
    if rows == [] then [] else if rows[0].turn == id then rows[1..] else [rows[0]] + Remove(rows[1..], id)
  }

  function Count(rows: seq<Keys>, id: string): nat {
    if rows == [] then 0 else (if rows[0].turn == id then 1 else 0) + Count(rows[1..], id)
  }

  function IoRows(queue: seq<Line>): seq<Keys> {
    if queue == [] then []
    else if queue[0].IoLine? then [queue[0].keys] + IoRows(queue[1..])
    else IoRows(queue[1..])
  }

  function IoLines(rows: seq<Keys>): seq<Line> {
    if rows == [] then [] else [IoLine(rows[0])] + IoLines(rows[1..])
  }

  // ---- The writer ----

  /** `recordIo`: dropped once the writer is closed. */
  function RecordIo(s: State, rows: seq<Keys>): State {
    if s.closed then s else s.(queue := s.queue + IoLines(rows))
  }

  /** `endTurn`, and the sink of a pending turn: the entry leaves the map first. */
  function Settle(s: State, id: string): State {
    var entry := Find(s.pending, id);
    if entry.None? then s else RecordIo(s.(pending := Remove(s.pending, id)), [entry.value])
  }

  /** `snapshotManifest`, called for a hash not seen yet: the file is named by the
      live manifest's own hash, once per process. */
  function Snapshot(s: State, live: Option<string>): State {
    if live.None? || live.value == "" then s.(failures := s.failures + 1)
    else if live.value in s.snapshotted then s
    else s.(snapshotted := s.snapshotted + {live.value}, queue := s.queue + [ManifestLine(live.value)])
  }

  function Write(disk: Disk, line: Line): Disk {
    match line
    case RecordLine(keys) => disk.(records := disk.records + [keys])
    case IoLine(keys) => disk.(io := disk.io + [keys])
    case ManifestLine(hash) => disk.(manifests := disk.manifests + [hash])
  }

  // ---- Repair ----

  /** Recorded turns without an io row, the first record of each. */
  function Orphans(covered: set<string>, records: seq<Keys>): seq<Keys>
    decreases |records|
  {
    if records == [] then []
    else if records[0].turn in covered then Orphans(covered, records[1..])
    else [records[0]] + Orphans(covered + {records[0].turn}, records[1..])
  }

  function Turns(rows: seq<Keys>): set<string> {
    set i | 0 <= i < |rows| :: rows[i].turn
  }

  function KeysOfLines(lines: seq<Option<Keys>>): seq<Keys> {
    if lines == [] then [] else
    var front, last := KeysOfLines(lines[..|lines| - 1]), lines[|lines| - 1];
    if last.Some? then front + [last.value] else front
  }

  /** The keys of every line of the files of one kind: of those that can be read, or
      of all. */
  function KeysIn(files: seq<EvidenceFile>, kind: FileKind, all: bool): seq<Keys> {
    if files == [] then [] else
    var front, last := KeysIn(files[..|files| - 1], kind, all), files[|files| - 1];
    if last.kind == kind && (all || last.read) then front + KeysOfLines(last.lines) else front
  }

  /** What the repair finds: a file that cannot be read counts as empty, and nothing is
      found when the directory cannot be listed. */
  function Backfill(listing: Option<seq<EvidenceFile>>): seq<Keys> {
    if listing.None? then []
    else Orphans(Turns(KeysIn(listing.value, IoFile, false)), KeysIn(listing.value, RecordsFile, false))
  }

  ghost predicate SameRows(a: seq<Keys>, b: seq<Keys>) {
    forall k :: k in a <==> k in b
  }

  /** The files hold what is on disk, read or not. */
  ghost predicate Lists(files: seq<EvidenceFile>, disk: Disk) {
    SameRows(KeysIn(files, IoFile, true), disk.io) && SameRows(KeysIn(files, RecordsFile, true), disk.records)
  }

  /** A record of the turn is read, and its row lies only in files that are not. */
  ghost predicate Blind(files: seq<EvidenceFile>, id: string) {
    && id in Turns(KeysIn(files, RecordsFile, false))
    && id in Turns(KeysIn(files, IoFile, true))
    && id !in Turns(KeysIn(files, IoFile, false))
  }

  // ---- Steps ----

  function Step(s: State, e: Event): State {
    if e.Boot? then
      if s.up then s else
      State(true, [], IoLines(Backfill(e.listing)), false, {}, 0, s.disk, {}, s.seen, s.named)
    else if !s.up then s
    else match e
      case Begin(id, session) =>
        s.(pending := s.pending + [Keys(session, id)], minted := s.minted + {id}, seen := s.seen + {id},
          named := s.named + {Keys(session, id)})
      case Sink(turn) => if turn.None? then s else Settle(s, turn.value)
      case EndTurn(id) => Settle(s, id)
      case SettleAll => RecordIo(s.(pending := []), s.pending)
      case Record(keys, hash, live) =>
        if s.closed then s else
        var t := if hash in s.snapshotted then s else Snapshot(s, live);
        t.(queue := t.queue + [RecordLine(keys)], seen := t.seen + {keys.turn}, named := t.named + {keys})
      case Drain(ok) =>
        if s.queue == [] then s
        else if ok then s.(queue := s.queue[1..], disk := Write(s.disk, s.queue[0]))
        else s.(queue := s.queue[1..], failures := s.failures + 1)
      case Close => s.(closed := true)
      case Crash => State(false, [], [], true, {}, 0, s.disk, {}, s.seen, s.named)
  }

  const NEVER_RUN := State(false, [], [], true, {}, 0, Disk([], [], []), {}, {}, {})

  // ---- Settled once ----

  /** Rows that a turn has, or is bound to get, in its io file. */
  function Rows(s: State, id: string): nat {
    Count(s.disk.io, id) + Count(IoRows(s.queue), id) + Count(s.pending, id)
  }

  /** No turn has or will have two rows, and only identifiers in use have any. */
  ghost predicate Once(s: State) {
    && (forall id :: Rows(s, id) <= 1)
    && (forall id :: Rows(s, id) > 0 ==> id in s.seen)
    && RecordsSeen(s)
    && (!s.up ==> s.pending == [] && s.queue == [])
  }

  ghost predicate RecordsSeen(s: State) {
    && (forall i :: 0 <= i < |s.disk.records| ==> s.disk.records[i].turn in s.seen)
    && (forall i :: 0 <= i < |s.queue| && s.queue[i].RecordLine? ==> s.queue[i].keys.turn in s.seen)
  }

  /** A boot lists the evidence directory as it is. */
  ghost predicate Listed(s: State, e: Event) {
    e.Boot? && !s.up && e.listing.Some? ==> Lists(e.listing.value, s.disk)
  }

  /** Fresh identifiers are minted, and no repair is blind to a row. */
  ghost predicate Honest(s: State, e: Event) {
    && Listed(s, e)
    && (e.Begin? ==> e.id !in s.seen)
    && (e.Boot? && !s.up && e.listing.Some? ==> forall id :: !Blind(e.listing.value, id))
  }

  lemma {:induction false} CountAppend(a: seq<Keys>, b: seq<Keys>, id: string)
    ensures Count(a + b, id) == Count(a, id) + Count(b, id)
  {
    if a == [] {
      assert a + b == b;
    } else {
      assert (a + b)[1..] == a[1..] + b;
      CountAppend(a[1..], b, id);
    }
  }

  lemma {:induction false} IoRowsAppend(a: seq<Line>, b: seq<Line>)
    ensures IoRows(a + b) == IoRows(a) + IoRows(b)
  {
    if a == [] {
      assert a + b == b;
    } else {
      assert (a + b)[1..] == a[1..] + b;
      IoRowsAppend(a[1..], b);
    }
  }

  lemma {:induction false} IoLinesRows(rows: seq<Keys>)
    ensures IoRows(IoLines(rows)) == rows
  {
    if rows != [] {
      IoLinesRows(rows[1..]);
      assert IoLines(rows)[1..] == IoLines(rows[1..]);
    }
  }

  lemma {:induction false} RemoveCounts(rows: seq<Keys>, id: string, other: string)
    ensures Find(rows, id).Some? <==> Count(rows, id) > 0
    ensures Find(rows, id).Some? ==> Find(rows, id).value.turn == id
    ensures Count(Remove(rows, id), other)
      == Count(rows, other) - if Find(rows, id).Some? && other == id then 1 else 0
  {
    if rows != [] && rows[0].turn != id {
      RemoveCounts(rows[1..], id, other);
      assert Remove(rows, id)[1..] == Remove(rows[1..], id);
    }
  }

  /** What enqueueing rows does to a turn's count. */
  lemma RecordIoCounts(s: State, rows: seq<Keys>, id: string)
    ensures Rows(RecordIo(s, rows), id) == Rows(s, id) + if s.closed then 0 else Count(rows, id)
  {
    IoRowsAppend(s.queue, IoLines(rows));
    IoLinesRows(rows);
    CountAppend(IoRows(s.queue), rows, id);
  }

  lemma SettleCounts(s: State, id: string, other: string)
    ensures Rows(Settle(s, id), other)
      == Rows(s, other) - if s.closed && other == id && Count(s.pending, id) > 0 then 1 else 0
  {
    RemoveCounts(s.pending, id, other);
    var entry := Find(s.pending, id);
    if entry.Some? {
      RecordIoCounts(s.(pending := Remove(s.pending, id)), [entry.value], other);
      assert [entry.value][1..] == [];
    }
  }

  lemma {:induction false} CountIn(rows: seq<Keys>, id: string)
    ensures Count(rows, id) > 0 <==> id in Turns(rows)
  {
    if rows != [] {
      CountIn(rows[1..], id);
      assert rows[0].turn in Turns(rows);
      assert forall i :: 0 < i < |rows| ==> rows[i] == rows[1..][i - 1];
    }
  }

  /** A repair names each turn once, and none that is covered. */
  lemma {:induction false} OrphansCount(covered: set<string>, records: seq<Keys>, id: string)
    ensures Count(Orphans(covered, records), id) == if id in Turns(records) && id !in covered then 1 else 0
    decreases |records|
  {
    if records != [] {
      var first := records[0].turn;
      assert Turns(records) == {first} + Turns(records[1..]) by {
        assert forall i :: 0 < i < |records| ==> records[i] == records[1..][i - 1];
        assert forall i :: 0 <= i < |records| - 1 ==> records[1..][i] == records[i + 1];
      }
      OrphansCount(if first in covered then covered else covered + {first}, records[1..], id);
      assert first !in covered ==> Orphans(covered, records)[1..] == Orphans(covered + {first}, records[1..]);
    }
  }

  lemma {:induction false} ReadAreIn(files: seq<EvidenceFile>, kind: FileKind)
    ensures forall k :: k in KeysIn(files, kind, false) ==> k in KeysIn(files, kind, true)
  {
    if files != [] {
      ReadAreIn(files[..|files| - 1], kind);
    }
  }

  lemma FewerTurns(a: seq<Keys>, b: seq<Keys>)
    requires forall k :: k in a ==> k in b
    ensures Turns(a) <= Turns(b)
  {
    forall i | 0 <= i < |a|
      ensures a[i].turn in Turns(b)
    {
      assert a[i] in b;
      var j :| 0 <= j < |b| && b[j] == a[i];
    }
  }

  lemma ListedTurns(files: seq<EvidenceFile>, disk: Disk)
    requires Lists(files, disk)
    ensures Turns(KeysIn(files, IoFile, true)) == Turns(disk.io)
    ensures Turns(KeysIn(files, IoFile, false)) <= Turns(disk.io)
    ensures Turns(KeysIn(files, RecordsFile, false)) <= Turns(disk.records)
  {
    ReadAreIn(files, IoFile);
    ReadAreIn(files, RecordsFile);
    FewerTurns(KeysIn(files, IoFile, true), disk.io);
    FewerTurns(disk.io, KeysIn(files, IoFile, true));
    FewerTurns(KeysIn(files, IoFile, false), disk.io);
    FewerTurns(KeysIn(files, RecordsFile, false), disk.records);
  }

  /** The rows of a turn after a boot: those on disk, and one more if a record of it is
      read and no row of it is. */
  lemma BootRows(s: State, files: seq<EvidenceFile>, id: string)
    requires !s.up
    ensures Rows(Step(s, Boot(Some(files))), id) == Count(s.disk.io, id)
      + if id in Turns(KeysIn(files, RecordsFile, false)) && id !in Turns(KeysIn(files, IoFile, false)) then 1 else 0
  {
    OrphansCount(Turns(KeysIn(files, IoFile, false)), KeysIn(files, RecordsFile, false), id);
    IoLinesRows(Backfill(Some(files)));
  }

  /** A repair gives a recorded turn a second row exactly when a record of it is read
      while its row lies only in files that are not. */
  lemma SecondRowIff(s: State, files: seq<EvidenceFile>, id: string)
    requires Once(s) && !s.up && Lists(files, s.disk)
    ensures Rows(Step(s, Boot(Some(files))), id) > 1 <==> Blind(files, id)
  {
    BootRows(s, files, id);
    ListedTurns(files, s.disk);
    CountIn(s.disk.io, id);
    assert Rows(s, id) <= 1;
  }

  lemma KeysMore(files: seq<EvidenceFile>, file: EvidenceFile, kind: FileKind)
    ensures forall all ::
      KeysIn(files + [file], kind, all)
      == KeysIn(files, kind, all) + if file.kind == kind && (all || file.read) then KeysOfLines(file.lines) else []
  {
    assert (files + [file])[..|files|] == files;
  }

  /** It happens: a turn has its row, its record is read, and the io file is not. */
  lemma BlindRepairDoubles(keys: Keys)
    ensures var s := State(false, [], [], true, {}, 0, Disk([keys], [keys], []), {}, {keys.turn}, {keys});
      var files := [EvidenceFile(RecordsFile, [Some(keys)], true), EvidenceFile(IoFile, [Some(keys)], false)];
      Once(s) && Lists(files, s.disk) && Rows(Step(s, Boot(Some(files))), keys.turn) == 2
  {
    var s := State(false, [], [], true, {}, 0, Disk([keys], [keys], []), {}, {keys.turn}, {keys});
    var records, io := EvidenceFile(RecordsFile, [Some(keys)], true), EvidenceFile(IoFile, [Some(keys)], false);
    KeysMore([], records, RecordsFile);
    KeysMore([records], io, RecordsFile);
    KeysMore([], records, IoFile);
    KeysMore([records], io, IoFile);
    assert [] + [records] == [records] && [records] + [io] == [records, io];
    assert [Some(keys)][..0] == [] && KeysOfLines([Some(keys)]) == [keys];
    assert [keys][0] == keys && [keys][1..] == [];
    assert keys.turn in Turns([keys]);
    BootRows(s, [records, io], keys.turn);
  }

  lemma BootSeen(s: State, files: seq<EvidenceFile>, id: string)
    requires Once(s) && !s.up && Lists(files, s.disk) && Rows(Step(s, Boot(Some(files))), id) > 0
    ensures id in s.seen
  {
    BootRows(s, files, id);
    ListedTurns(files, s.disk);
    assert Rows(s, id) >= Count(s.disk.io, id);
    assert forall turn :: turn in Turns(s.disk.records) ==> turn in s.seen;
  }

  /** So a boot keeps every turn at one row exactly when it is blind to none. */
  lemma BootKeepsOnceIff(s: State, files: seq<EvidenceFile>)
    requires Once(s) && !s.up && Lists(files, s.disk)
    ensures Once(Step(s, Boot(Some(files)))) <==> forall id :: !Blind(files, id)
  {
    StepSeen(s, Boot(Some(files)));
    forall id
      ensures Rows(Step(s, Boot(Some(files))), id) > 1 <==> Blind(files, id)
      ensures Rows(Step(s, Boot(Some(files))), id) > 0 ==> id in s.seen
    {
      SecondRowIff(s, files, id);
      if Rows(Step(s, Boot(Some(files))), id) > 0 {
        BootSeen(s, files, id);
      }
    }
  }

  lemma OtherLine(queue: seq<Line>, line: Line)
    requires !line.IoLine?
    ensures IoRows(queue + [line]) == IoRows(queue)
  {
    IoRowsAppend(queue, [line]);
    assert [line][1..] == [];
    assert IoRows(queue) + [] == IoRows(queue);
  }

  lemma RecordCounts(s: State, keys: Keys, hash: string, live: Option<string>, id: string)
    requires s.up
    ensures Rows(Step(s, Record(keys, hash, live)), id) == Rows(s, id)
  {
    if !s.closed {
      var t := if hash in s.snapshotted then s else Snapshot(s, live);
      if live.Some? {
        OtherLine(s.queue, ManifestLine(live.value));
      }
      OtherLine(t.queue, RecordLine(keys));
    }
  }

  lemma DrainCounts(s: State, ok: bool, id: string)
    requires s.up
    ensures Rows(Step(s, Drain(ok)), id) <= Rows(s, id)
    ensures ok ==> Rows(Step(s, Drain(ok)), id) == Rows(s, id)
  {
    if s.queue != [] && s.queue[0].IoLine? {
      CountAppend(s.disk.io, [s.queue[0].keys], id);
      assert ([s.queue[0].keys] + IoRows(s.queue[1..]))[1..] == IoRows(s.queue[1..]);
    }
  }

  /** Away from a boot, a turn only gains the row it is minted for. */
  lemma StepCounts(s: State, e: Event, id: string)
    requires s.up && !e.Boot?
    ensures Rows(Step(s, e), id) <= Rows(s, id) + if e.Begin? && e.id == id then 1 else 0
  {
    match e
    case Begin(minted, session) => CountAppend(s.pending, [Keys(session, minted)], id);
    case Sink(turn) => if turn.Some? { SettleCounts(s, turn.value, id); }
    case EndTurn(turn) => SettleCounts(s, turn, id);
    case SettleAll => RecordIoCounts(s.(pending := []), s.pending, id);
    case Record(keys, hash, live) => RecordCounts(s, keys, hash, live, id);
    case Drain(ok) => DrainCounts(s, ok, id);
    case Close =>
    case Crash =>
    case Boot(_) =>
  }

  lemma {:induction false} IoLinesOnly(rows: seq<Keys>)
    ensures forall i :: 0 <= i < |IoLines(rows)| ==> IoLines(rows)[i].IoLine?
  {
    if rows != [] {
      IoLinesOnly(rows[1..]);
    }
  }

  lemma SettleSeen(s: State, rows: seq<Keys>)
    requires RecordsSeen(s)
    ensures RecordsSeen(RecordIo(s, rows))
  {
    IoLinesOnly(rows);
  }

  lemma StepSeen(s: State, e: Event)
    requires RecordsSeen(s)
    ensures RecordsSeen(Step(s, e)) && s.seen <= Step(s, e).seen
  {
    match e
    case Sink(turn) =>
      if turn.Some? && Find(s.pending, turn.value).Some? {
        SettleSeen(s.(pending := Remove(s.pending, turn.value)), [Find(s.pending, turn.value).value]);
      }
    case EndTurn(turn) =>
      if Find(s.pending, turn).Some? {
        SettleSeen(s.(pending := Remove(s.pending, turn)), [Find(s.pending, turn).value]);
      }
    case SettleAll => SettleSeen(s.(pending := []), s.pending);
    case Boot(listing) => IoLinesOnly(Backfill(listing));
    case _ =>
  }

  lemma StepKeepsOnce(s: State, e: Event)
    requires Once(s) && Honest(s, e)
    ensures Once(Step(s, e))
  {
    StepSeen(s, e);
    if e.Boot? {
      if !s.up && e.listing.Some? {
        BootKeepsOnceIff(s, e.listing.value);
      } else if !s.up {
        assert forall id :: Rows(Step(s, e), id) == Rows(s, id);
      }
    } else if s.up {
      forall id
        ensures Rows(Step(s, e), id) <= 1 && (Rows(Step(s, e), id) > 0 ==> id in Step(s, e).seen)
      {
        StepCounts(s, e, id);
      }
    }
  }

  /** Over every run, with crashes and repairs anywhere, no turn is ever given two
      rows: not on disk, and not on disk and in the queue together. */
  lemma SettledOnce(run: seq<Event>, n: nat, id: string)
    requires n <= |run| && Allowed(Step, Honest, NEVER_RUN, run, n)
    ensures Rows(At(Step, NEVER_RUN, run, n), id) <= 1
    ensures Count(At(Step, NEVER_RUN, run, n).disk.io, id) <= 1
  {
    var honest := (s: State, e: Event) => Honest(s, e);
    var once := (s: State) => Once(s);
    forall s: State, e: Event | once(s) && honest(s, e)
      ensures once(Step(s, e))
    {
      StepKeepsOnce(s, e);
    }
    AllAlong(Step, honest, once, NEVER_RUN, run, n);
  }

  // ---- Draining the queue ----

  /** `n` successful appends. */
  function Drains(n: nat): (run: seq<Event>)
    ensures |run| == n && forall i :: 0 <= i < n ==> run[i] == Drain(true)
  {
    seq(n, _ => Drain(true))
  }

  function WriteAll(disk: Disk, lines: seq<Line>): Disk {
    if lines == [] then disk else Write(WriteAll(disk, lines[..|lines| - 1]), lines[|lines| - 1])
  }

  function RecordRows(lines: seq<Line>): seq<Keys> {
    if lines == [] then [] else
    RecordRows(lines[..|lines| - 1])
    + match lines[|lines| - 1] case RecordLine(keys) => [keys] case _ => []
  }

  lemma {:induction false} WriteAllRows(disk: Disk, lines: seq<Line>)
    ensures WriteAll(disk, lines).io == disk.io + IoRows(lines)
    ensures WriteAll(disk, lines).records == disk.records + RecordRows(lines)
  {
    if lines != [] {
      var front, last := lines[..|lines| - 1], lines[|lines| - 1];
      assert lines == front + [last];
      WriteAllRows(disk, front);
      if last.IoLine? {
        IoRowsAppend(front, [last]);
        assert [last][1..] == [] && IoRows([last]) == [last.keys];
      } else {
        OtherLine(front, last);
      }
    }
  }

  lemma {:induction false} NoRecordRows(lines: seq<Line>)
    requires forall i :: 0 <= i < |lines| ==> lines[i].IoLine?
    ensures RecordRows(lines) == []
  {
    if lines != [] {
      NoRecordRows(lines[..|lines| - 1]);
    }
  }

  /** First in, first out: what was queued reaches the disk in order. */
  lemma {:induction false} DrainsWrite(s: State, run: seq<Event>, n: nat)
    requires s.up && n <= |s.queue| <= |run| && forall i :: 0 <= i < |run| ==> run[i] == Drain(true)
    ensures At(Step, s, run, n) == s.(queue := s.queue[n..], disk := WriteAll(s.disk, s.queue[..n]))
  {
    if n == 0 {
      assert s.queue[0..] == s.queue && s.queue[..0] == [];
    } else {
      DrainsWrite(s, run, n - 1);
      assert s.queue[..n][..n - 1] == s.queue[..n - 1];
      assert s.queue[n - 1..][1..] == s.queue[n..];
    }
  }

  /** The process once its whole queue has been appended. */
  function Drained(s: State): State {
    s.(queue := [], disk := WriteAll(s.disk, s.queue))
  }

  lemma DrainedIsRun(s: State)
    requires s.up
    ensures End(Step, s, Drains(|s.queue|)) == Drained(s)
  {
    DrainsWrite(s, Drains(|s.queue|), |s.queue|);
    assert s.queue[..|s.queue|] == s.queue;
  }

  // ---- What a repair achieves ----

  lemma {:induction false} NoOrphans(covered: set<string>, records: seq<Keys>)
    requires forall i :: 0 <= i < |records| ==> records[i].turn in covered
    ensures Orphans(covered, records) == []
  {
    if records != [] {
      NoOrphans(covered, records[1..]);
    }
  }

  /** The state once a repair over these files has drained. */
  function Repaired(s: State, files: seq<EvidenceFile>): State {
    End(Step, Step(s, Boot(Some(files))), Drains(|Step(s, Boot(Some(files))).queue|))
  }

  /** A repair appends its rows to the io files and nothing to the records. */
  lemma RepairedDisk(s: State, files: seq<EvidenceFile>)
    requires !s.up
    ensures var repaired := Repaired(s, files);
      && repaired.up && repaired.queue == []
      && repaired.disk.io == s.disk.io + Backfill(Some(files)) && repaired.disk.records == s.disk.records
  {
    var booted := Step(s, Boot(Some(files)));
    var rows := Backfill(Some(files));
    DrainedIsRun(booted);
    WriteAllRows(s.disk, booted.queue);
    IoLinesRows(rows);
    IoLinesOnly(rows);
    NoRecordRows(booted.queue);
    assert s.disk.records + [] == s.disk.records;
  }

  /** Once a repair has drained, a turn of which it read a record has exactly one row,
      unless it was blind to that turn's row. */
  lemma RepairCompletes(s: State, files: seq<EvidenceFile>, id: string)
    requires Once(s) && !s.up && Lists(files, s.disk) && id in Turns(KeysIn(files, RecordsFile, false))
    ensures Count(Repaired(s, files).disk.io, id) == if Blind(files, id) then 2 else 1
  {
    RepairedDisk(s, files);
    CountAppend(s.disk.io, Backfill(Some(files)), id);
    OrphansCount(Turns(KeysIn(files, IoFile, false)), KeysIn(files, RecordsFile, false), id);
    ListedTurns(files, s.disk);
    CountIn(s.disk.io, id);
    assert Rows(s, id) <= 1;
  }

  /** After a repair that read a record of every recorded turn, a second one finds
      nothing to add unless it is blind to a row itself. */
  lemma SecondRepairAddsNothing(s: State, files: seq<EvidenceFile>, again: seq<EvidenceFile>)
    requires Once(s) && !s.up && Lists(files, s.disk)
    requires Turns(s.disk.records) <= Turns(KeysIn(files, RecordsFile, false))
    requires Lists(again, Repaired(s, files).disk)
    ensures Backfill(Some(again)) == [] <==> forall id :: !Blind(again, id)
  {
    var repaired := Repaired(s, files);
    RepairedDisk(s, files);
    ListedTurns(again, repaired.disk);
    var covered, records := Turns(KeysIn(again, IoFile, false)), KeysIn(again, RecordsFile, false);
    forall id | id in Turns(records)
      ensures id in Turns(KeysIn(again, IoFile, true))
    {
      RepairCompletes(s, files, id);
      CountIn(repaired.disk.io, id);
    }
    if forall id :: !Blind(again, id) {
      forall i | 0 <= i < |records|
        ensures records[i].turn in covered
      {
        assert records[i].turn in Turns(records) && !Blind(again, records[i].turn);
      }
      NoOrphans(covered, records);
    } else {
      var id :| Blind(again, id);
      OrphansCount(covered, records, id);
    }
  }

  /** The turn has its one row on disk or in the queue, and is not pending. */
  ghost predicate Written(s: State, id: string) {
    s.up && Count(s.disk.io, id) + Count(IoRows(s.queue), id) == 1 && Count(s.pending, id) == 0
  }

  /** No append fails, and the process runs on. */
  ghost predicate RunsOn(s: State, e: Event) {
    Honest(s, e) && e != Drain(false) && !e.Crash?
  }

  lemma SettleLeaves(s: State, id: string, other: string)
    requires Written(s, other)
    ensures Written(Settle(s, id), other)
  {
    SettleCounts(s, id, other);
    RemoveCounts(s.pending, id, other);
  }

  lemma StepKeepsWritten(s: State, e: Event, id: string)
    requires Once(s) && RunsOn(s, e) && Written(s, id)
    ensures Written(Step(s, e), id)
  {
    match e
    case Begin(minted, session) =>
      CountAppend(s.pending, [Keys(session, minted)], id);
      assert [Keys(session, minted)][1..] == [];
      assert Rows(s, id) > 0;
    case Sink(turn) => if turn.Some? { SettleLeaves(s, turn.value, id); }
    case EndTurn(turn) => SettleLeaves(s, turn, id);
    case SettleAll => RecordIoCounts(s.(pending := []), s.pending, id);
    case Record(keys, hash, live) => RecordCounts(s, keys, hash, live, id);
    case Drain(ok) => DrainCounts(s, ok, id);
    case _ =>
  }

  /** Turns need not wait for the repair to drain: whatever they do afterwards, as
      long as no append fails and the process runs on, a turn of which the boot read a
      record has its one row on disk or in the queue, so on disk once the queue has none. */
  lemma RepairSurvives(s: State, files: seq<EvidenceFile>, run: seq<Event>, n: nat, id: string)
    requires Once(s) && !s.up && Honest(s, Boot(Some(files))) && id in Turns(KeysIn(files, RecordsFile, false))
    requires n <= |run| && Allowed(Step, RunsOn, Step(s, Boot(Some(files))), run, n)
    ensures var t := At(Step, Step(s, Boot(Some(files))), run, n);
      Written(t, id) && (Count(IoRows(t.queue), id) == 0 ==> Count(t.disk.io, id) == 1)
  {
    var booted := Step(s, Boot(Some(files)));
    BootRows(s, files, id);
    SecondRowIff(s, files, id);
    ListedTurns(files, s.disk);
    CountIn(s.disk.io, id);
    StepKeepsOnce(s, Boot(Some(files)));
    var runsOn := (t: State, e: Event) => RunsOn(t, e);
    var sound := (t: State) => Once(t) && Written(t, id);
    forall t: State, e: Event | sound(t) && runsOn(t, e)
      ensures sound(Step(t, e))
    {
      StepKeepsOnce(t, e);
      StepKeepsWritten(t, e, id);
    }
    AllAlong(Step, runsOn, sound, booted, run, n);
  }

  // ---- A graceful shutdown ----

  /** While the writer is open, every turn minted by this process has its one row
      pending, queued or on disk. */
  ghost predicate AllAccounted(s: State) {
    (s.up && !s.closed ==> forall id :: id in s.minted ==> Rows(s, id) == 1) && (!s.up ==> s.minted == {})
  }

  ghost predicate HonestAndWritable(s: State, e: Event) {
    Honest(s, e) && e != Drain(false)
  }

  lemma StepAccounts(s: State, e: Event)
    requires Once(s) && AllAccounted(s) && HonestAndWritable(s, e)
    ensures AllAccounted(Step(s, e))
  {
    var t := Step(s, e);
    if s.up && !e.Boot? && !e.Crash? && !t.closed {
      forall id | id in t.minted
        ensures Rows(t, id) == 1
      {
        match e
        case Begin(minted, session) =>
          CountAppend(s.pending, [Keys(session, minted)], id);
          assert [Keys(session, minted)][1..] == [];
          assert Rows(s, minted) == 0;
        case Sink(turn) => if turn.Some? { SettleCounts(s, turn.value, id); }
        case EndTurn(turn) => SettleCounts(s, turn, id);
        case SettleAll => RecordIoCounts(s.(pending := []), s.pending, id);
        case Record(keys, hash, live) => RecordCounts(s, keys, hash, live, id);
        case Drain(ok) => DrainCounts(s, ok, id);
        case _ =>
      }
    }
  }

  /** After any run without a failed append, sweeping the pending turns, closing and
      draining leaves exactly one row on disk for every turn this process minted. */
  lemma GracefulShutdown(run: seq<Event>, id: string)
    requires Allowed(Step, HonestAndWritable, NEVER_RUN, run, |run|)
    requires End(Step, NEVER_RUN, run).up && !End(Step, NEVER_RUN, run).closed
    requires id in End(Step, NEVER_RUN, run).minted
    ensures var swept := Step(Step(End(Step, NEVER_RUN, run), SettleAll), Close);
      Count(End(Step, swept, Drains(|swept.queue|)).disk.io, id) == 1
  {
    var writable := (s: State, e: Event) => HonestAndWritable(s, e);
    var sound := (s: State) => Once(s) && AllAccounted(s);
    forall s: State, e: Event | sound(s) && writable(s, e)
      ensures sound(Step(s, e))
    {
      StepKeepsOnce(s, e);
      StepAccounts(s, e);
    }
    AllAlong(Step, writable, sound, NEVER_RUN, run, |run|);
    SweepAndDrain(End(Step, NEVER_RUN, run), id);
  }

  lemma SweepAndDrain(s: State, id: string)
    requires s.up && !s.closed && Rows(s, id) == 1
    ensures var swept := Step(Step(s, SettleAll), Close);
      Count(End(Step, swept, Drains(|swept.queue|)).disk.io, id) == 1
  {
    var swept := Step(Step(s, SettleAll), Close);
    RecordIoCounts(s.(pending := []), s.pending, id);
    DrainedIsRun(swept);
    WriteAllRows(swept.disk, swept.queue);
    CountAppend(swept.disk.io, IoRows(swept.queue), id);
  }

  // ---- Whose evidence a row is ----

  ghost predicate Among(rows: seq<Keys>, named: set<Keys>) {
    forall k :: k in rows ==> k in named
  }

  /** Every row, wherever it is, names a session and turn that were begun or recorded
      together. */
  ghost predicate Attributed(s: State) {
    && Among(s.disk.io, s.named) && Among(s.disk.records, s.named) && Among(s.pending, s.named)
    && forall i :: 0 <= i < |s.queue| && !s.queue[i].ManifestLine? ==> s.queue[i].keys in s.named
  }

  lemma {:induction false} OrphansRecorded(covered: set<string>, records: seq<Keys>)
    ensures forall k :: k in Orphans(covered, records) ==> k in records
    decreases |records|
  {
    if records != [] {
      OrphansRecorded(if records[0].turn in covered then covered else covered + {records[0].turn}, records[1..]);
      assert records == [records[0]] + records[1..];
    }
  }

  lemma {:induction false} IoLinesAmong(rows: seq<Keys>, named: set<Keys>)
    requires Among(rows, named)
    ensures forall i :: 0 <= i < |IoLines(rows)| ==> IoLines(rows)[i].IoLine? && IoLines(rows)[i].keys in named
  {
    if rows != [] {
      assert rows[0] in rows && forall k :: k in rows[1..] ==> k in rows;
      IoLinesAmong(rows[1..], named);
    }
  }

  lemma {:induction false} RemoveAmong(rows: seq<Keys>, id: string)
    ensures forall k :: k in Remove(rows, id) ==> k in rows
    ensures Find(rows, id).Some? ==> Find(rows, id).value in rows
  {
    if rows != [] {
      RemoveAmong(rows[1..], id);
      assert rows == [rows[0]] + rows[1..];
    }
  }

  lemma RecordIoAttributed(s: State, rows: seq<Keys>)
    requires Attributed(s) && Among(rows, s.named)
    ensures Attributed(RecordIo(s, rows))
  {
    IoLinesAmong(rows, s.named);
  }

  lemma SettleAttributed(s: State, id: string)
    requires Attributed(s)
    ensures Attributed(Settle(s, id))
  {
    RemoveAmong(s.pending, id);
    var entry := Find(s.pending, id);
    if entry.Some? {
      RecordIoAttributed(s.(pending := Remove(s.pending, id)), [entry.value]);
    }
  }

  lemma StepAttributed(s: State, e: Event)
    requires Attributed(s) && Listed(s, e)
    ensures Attributed(Step(s, e))
  {
    if e.Boot? && !s.up {
      if e.listing.Some? {
        var files := e.listing.value;
        OrphansRecorded(Turns(KeysIn(files, IoFile, false)), KeysIn(files, RecordsFile, false));
        ReadAreIn(files, RecordsFile);
        IoLinesAmong(Backfill(e.listing), s.named);
      }
    } else if s.up && e.Sink? && e.turn.Some? {
      SettleAttributed(s, e.turn.value);
    } else if s.up && e.EndTurn? {
      SettleAttributed(s, e.id);
    } else if s.up && e.SettleAll? {
      RecordIoAttributed(s.(pending := []), s.pending);
    }
  }

  /** Over every run, whatever is lost or unreadable, no row is evidence of a session
      and turn that were not begun or recorded together. */
  lemma NeverMisattributed(run: seq<Event>, n: nat)
    requires n <= |run| && Allowed(Step, Listed, NEVER_RUN, run, n)
    ensures Attributed(At(Step, NEVER_RUN, run, n))
  {
    var listed := (s: State, e: Event) => Listed(s, e);
    var attributed := (s: State) => Attributed(s);
    forall s: State, e: Event | attributed(s) && listed(s, e)
      ensures attributed(Step(s, e))
    {
      StepAttributed(s, e);
    }
    AllAlong(Step, listed, attributed, NEVER_RUN, run, n);
  }
}
