/** The evidence writer, the turn coordinator over it, and the boot repair, as the
    objects and loops whose steps the state machine of TurnEvidence describes. */
module Attestation {
  import opened Prelude
  import opened TurnEvidence

  class AttestationWriter {
    /** The write chain: what is appended next comes first. */
    var queue: seq<Line>
    var closed: bool
    var snapshotted: set<string>
    var failures: nat
    var appended: nat
    var disk: Disk
    ghost var seen: set<string>
    ghost var named: set<Keys>

    constructor (disk: Disk, ghost seen: set<string>, ghost named: set<Keys>)
      ensures queue == [] && !closed && snapshotted == {} && failures == 0 && appended == 0
      ensures this.disk == disk && this.seen == seen && this.named == named
    {
      queue, closed, snapshotted, failures, appended := [], false, {}, 0, 0;
      this.disk, this.seen, this.named := disk, seen, named;
    }

    ghost function View(pending: seq<Keys>, minted: set<string>): State
      reads this
    {
      State(true, pending, queue, closed, snapshotted, failures, disk, minted, seen, named)
    }

    /** `live` is the hash that the manifest getter serves, if it serves any. */
    method SnapshotManifest(live: Option<string>)
      modifies `queue, `snapshotted, `failures
      ensures View([], {}) == if closed then old(View([], {})) else Snapshot(old(View([], {})), live)
    {
      if closed {
        return;
      }
      if live.None? || live.value == "" {
        failures := failures + 1;
        return;
      }
      if live.value in snapshotted {
        return;
      }
      snapshotted := snapshotted + {live.value};
      queue := queue + [ManifestLine(live.value)];
    }

    method Record(keys: Keys, hash: string, live: Option<string>)
      modifies `queue, `snapshotted, `failures, `seen, `named
      ensures View([], {}) == Step(old(View([], {})), Event.Record(keys, hash, live))
    {
      if closed {
        return;
      }
      if hash !in snapshotted {
        SnapshotManifest(live);
      }
      queue := queue + [RecordLine(keys)];
      seen, named := seen + {keys.turn}, named + {keys};
    }

    method RecordIo(keys: Keys)
      modifies `queue
      ensures View([], {}) == TurnEvidence.RecordIo(old(View([], {})), [keys])
    {
      IoLinesOne([], keys);
      assert [] + [keys] == [keys] && [] + [IoLine(keys)] == [IoLine(keys)];
      if !closed {
        queue := queue + [IoLine(keys)];
      }
    }

    method Close()
      modifies `closed
      ensures View([], {}) == Step(old(View([], {})), Event.Close)
    {
      closed := true;
    }

    /** One link of the write chain: the append succeeds or is counted as failed. */
    method DrainOne(ok: bool)
      modifies `queue, `disk, `failures, `appended
      ensures View([], {}) == Step(old(View([], {})), Drain(ok))
      ensures appended + failures
        == old(appended) + old(failures) + if old(queue) == [] then 0 else 1
    {
      if queue == [] {
        return;
      }
      if ok {
        disk := Write(disk, queue[0]);
        appended := appended + 1;
      } else {
        failures := failures + 1;
      }
      queue := queue[1..];
    }
  }

  lemma {:induction false} IoLinesAppend(a: seq<Keys>, b: seq<Keys>)
    ensures IoLines(a + b) == IoLines(a) + IoLines(b)
  {
    if a == [] {
      assert a + b == b;
    } else {
      assert (a + b)[1..] == a[1..] + b;
      IoLinesAppend(a[1..], b);
    }
  }

  lemma IoLinesOne(a: seq<Keys>, keys: Keys)
    ensures IoLines(a + [keys]) == IoLines(a) + [IoLine(keys)]
  {
    IoLinesAppend(a, [keys]);
    assert [keys][1..] == [];
  }

  /** Settling the first of the keys left moves it behind those already queued. */
  lemma OneSettled(s: State, keys: seq<Keys>, i: nat)
    requires i < |keys|
    ensures Settle(TurnEvidence.RecordIo(s.(pending := keys[i..]), keys[..i]), keys[i].turn)
      == TurnEvidence.RecordIo(s.(pending := keys[i + 1..]), keys[..i + 1])
  {
    IoLinesOne(keys[..i], keys[i]);
    IoLinesOne([], keys[i]);
    assert keys[..i + 1] == keys[..i] + [keys[i]] && [] + [keys[i]] == [keys[i]];
    assert keys[i..][0] == keys[i] && keys[i..][1..] == keys[i + 1..];
    Nest(s.queue, IoLines(keys[..i]), [IoLine(keys[i])]);
  }

  /** The coordinator of one process, in io mode. */
  class Coordinator {
    const writer: AttestationWriter
    var pending: seq<Keys>
    ghost var minted: set<string>

    constructor (writer: AttestationWriter)
      ensures this.writer == writer && pending == [] && minted == {}
    {
      this.writer, pending, minted := writer, [], {};
    }

    ghost function View(): State
      reads this, writer
    {
      writer.View(pending, minted)
    }

    /** `id` is the identifier that randomUUID returns. */
    method BeginTurn(id: string, session: string)
      modifies this, writer`seen, writer`named
      ensures View() == Step(old(View()), Begin(id, session))
    {
      pending := pending + [Keys(session, id)];
      minted, writer.seen, writer.named := minted + {id}, writer.seen + {id}, writer.named + {Keys(session, id)};
    }

    method EndTurn(id: string)
      modifies `pending, writer`queue
      ensures View() == Step(old(View()), Event.EndTurn(id))
    {
      var entry := Find(pending, id);
      if entry.Some? {
        pending := Remove(pending, id);
        writer.RecordIo(entry.value);
        assert writer.View([], {}) == writer.View(pending, minted).(pending := [], minted := {});
      }
    }

    method EvidenceSink(turn: Option<string>)
      modifies `pending, writer`queue
      ensures View() == Step(old(View()), Sink(turn))
    {
      if turn.Some? {
        EndTurn(turn.value);
      }
    }

    /** Settles a snapshot of the keys, one by one. */
    method SettleAll()
      modifies `pending, writer`queue
      ensures View() == Step(old(View()), Event.SettleAll)
    {
      var keys := pending;
      for i := 0 to |keys|
        invariant pending == keys[i..]
        invariant View() == TurnEvidence.RecordIo(old(View()).(pending := keys[i..]), keys[..i])
      {
        OneSettled(old(View()), keys, i);
        EndTurn(keys[i].turn);
      }
      assert keys[..|keys|] == keys;
    }
  }

  // ---- Boot repair ----

  lemma TurnsAppend(a: seq<Keys>, b: seq<Keys>)
    ensures Turns(a + b) == Turns(a) + Turns(b)
  {
    assert forall i :: 0 <= i < |a| ==> (a + b)[i] == a[i];
    assert forall i :: 0 <= i < |b| ==> (a + b)[|a| + i] == b[i];
  }

  lemma TurnsOne(keys: Keys)
    ensures Turns([keys]) == {keys.turn}
  {
    assert [keys][0] == keys;
  }

  lemma {:induction false} OrphansAppend(covered: set<string>, a: seq<Keys>, b: seq<Keys>)
    ensures Orphans(covered, a + b)
      == Orphans(covered, a) + Orphans(covered + Turns(Orphans(covered, a)), b)
    decreases |a|
  {
    if a == [] {
      assert a + b == b && covered + Turns([]) == covered;
    } else {
      assert (a + b)[1..] == a[1..] + b;
      if a[0].turn in covered {
        OrphansAppend(covered, a[1..], b);
      } else {
        var rest := Orphans(covered + {a[0].turn}, a[1..]);
        OrphansAppend(covered + {a[0].turn}, a[1..], b);
        TurnsAppend([a[0]], rest);
        TurnsOne(a[0]);
        assert covered + {a[0].turn} + Turns(rest) == covered + Turns([a[0]] + rest);
      }
    }
  }

  method CoverLines(lines: seq<Option<Keys>>, before: set<string>) returns (covered: set<string>)
    ensures covered == before + Turns(KeysOfLines(lines))
  {
    covered := before;
    for i := 0 to |lines|
      invariant covered == before + Turns(KeysOfLines(lines[..i]))
    {
      assert lines[..i + 1][..i] == lines[..i];
      if lines[i].Some? {
        covered := covered + {lines[i].value.turn};
        TurnsAppend(KeysOfLines(lines[..i]), [lines[i].value]);
        TurnsOne(lines[i].value);
      }
    }
    assert lines[..|lines|] == lines;
  }

  method OrphanLines(lines: seq<Option<Keys>>, covered: set<string>, before: seq<Keys>) returns (orphans: seq<Keys>)
    ensures orphans == before + Orphans(covered + Turns(before), KeysOfLines(lines))
  {
    orphans := before;
    for i := 0 to |lines|
      invariant orphans == before + Orphans(covered + Turns(before), KeysOfLines(lines[..i]))
    {
      assert lines[..i + 1][..i] == lines[..i];
      if lines[i].Some? {
        OneMoreOrphan(covered, before, KeysOfLines(lines[..i]), lines[i].value);
        if lines[i].value.turn !in covered && lines[i].value.turn !in Turns(orphans) {
          orphans := orphans + [lines[i].value];
        }
      }
    }
    assert lines[..|lines|] == lines;
  }

  lemma OneMoreOrphan(covered: set<string>, before: seq<Keys>, rows: seq<Keys>, keys: Keys)
    ensures var found := Orphans(covered + Turns(before), rows);
      Orphans(covered + Turns(before), rows + [keys])
        == found + if keys.turn in covered || keys.turn in Turns(before + found) then [] else [keys]
  {
    var found := Orphans(covered + Turns(before), rows);
    OrphansAppend(covered + Turns(before), rows, [keys]);
    TurnsAppend(before, found);
    assert [keys][1..] == [];
  }

  method RecordAll(writer: AttestationWriter, orphans: seq<Keys>)
    modifies writer`queue
    ensures writer.View([], {}) == TurnEvidence.RecordIo(old(writer.View([], {})), orphans)
  {
    assert orphans[..0] == [] && writer.queue + [] == writer.queue;
    for i := 0 to |orphans|
      invariant writer.View([], {}) == TurnEvidence.RecordIo(old(writer.View([], {})), orphans[..i])
    {
      IoLinesOne(orphans[..i], orphans[i]);
      assert orphans[..i + 1] == orphans[..i] + [orphans[i]];
      assert [orphans[i]][1..] == [];
      writer.RecordIo(orphans[i]);
    }
    assert orphans[..|orphans|] == orphans;
  }

  /** One backfill row for each recorded turn that no io file covers, in the order of
      their first records; nothing when the directory cannot be listed. */
  method RepairOrphanTurnEvidence(writer: AttestationWriter, names: Option<seq<EvidenceFile>>) returns (n: nat)
    modifies writer`queue
    ensures n == |Backfill(names)|
    ensures writer.View([], {}) == TurnEvidence.RecordIo(old(writer.View([], {})), Backfill(names))
  {
    if names.None? {
      assert writer.queue + [] == writer.queue;
      return 0;
    }
    var files := names.value;
    var covered: set<string> := {};
    for i := 0 to |files|
      invariant covered == Turns(KeysIn(files[..i], IoFile, false))
      invariant writer.View([], {}) == old(writer.View([], {}))
    {
      assert files[..i + 1][..i] == files[..i];
      if files[i].kind == IoFile && files[i].read {
        TurnsAppend(KeysIn(files[..i], IoFile, false), KeysOfLines(files[i].lines));
        covered := CoverLines(files[i].lines, covered);
      }
    }
    var orphans: seq<Keys> := [];
    for i := 0 to |files|
      invariant orphans == Orphans(covered, KeysIn(files[..i], RecordsFile, false))
      invariant writer.View([], {}) == old(writer.View([], {}))
    {
      assert files[..i + 1][..i] == files[..i];
      if files[i].kind == RecordsFile && files[i].read {
        OrphansAppend(covered, KeysIn(files[..i], RecordsFile, false), KeysOfLines(files[i].lines));
        orphans := OrphanLines(files[i].lines, covered, orphans);
      }
    }
    assert files[..|files|] == files;
    RecordAll(writer, orphans);
    return |orphans|;
  }

  /** The state machine's boot is this repair on a fresh writer, whichever files can be
      read and whether or not the directory can be listed. */
  lemma BootIsRepair(s: State, names: Option<seq<EvidenceFile>>)
    requires !s.up
    ensures Step(s, Boot(names)) == TurnEvidence.RecordIo(
      State(true, [], [], false, {}, 0, s.disk, {}, s.seen, s.named), Backfill(names))
  {
    assert [] + IoLines(Backfill(names)) == IoLines(Backfill(names));
  }
}
