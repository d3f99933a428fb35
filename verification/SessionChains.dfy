/** The per-session turn serializer of the channel pipeline: promises chained per
    session, and map entries that each chain reclaims for itself. */
module SessionChains {
  import opened Prelude
  import opened Runs

  datatype Phase = Waiting | Running | Settled(ok: bool)

  /** One call: the promise it was chained behind, if any, how far its task is, and
      whether its cleanup has run. Promises are numbered in submission order. */
  datatype Call = Call(session: string, prior: Option<nat>, phase: Phase, cleaned: bool)

  datatype State = State(chains: map<string, nat>, calls: seq<Call>)

  datatype Event = Submit(session: string) | Start(id: nat) | Finish(id: nat, ok: bool) | Cleanup(id: nat)

  const IDLE := State(map[], [])

  /** `prior.then(task, task)`: the task may run once the prior promise settled,
      either way. */
  predicate Startable(s: State, id: nat) {
    && id < |s.calls| && s.calls[id].phase == Waiting
    && (s.calls[id].prior.None?
        || (s.calls[id].prior.value < |s.calls| && s.calls[s.calls[id].prior.value].phase.Settled?))
  }

  predicate Enabled(s: State, e: Event) {
    match e
    case Submit(_) => true
    case Start(id) => Startable(s, id)
    case Finish(id, _) => id < |s.calls| && s.calls[id].phase == Running
    case Cleanup(id) => id < |s.calls| && s.calls[id].phase.Settled? && !s.calls[id].cleaned
  }

  function Lookup(chains: map<string, nat>, session: string): Option<nat> {
    if session in chains then Some(chains[session]) else None
  }

  function Step(s: State, e: Event): State {
    if !Enabled(s, e) then s else
    match e
    case Submit(session) =>
      State(s.chains[session := |s.calls|], s.calls + [Call(session, Lookup(s.chains, session), Waiting, false)])
    case Start(id) => s.(calls := s.calls[id := s.calls[id].(phase := Running)])
    case Finish(id, ok) => s.(calls := s.calls[id := s.calls[id].(phase := Settled(ok))])
    case Cleanup(id) =>
      var session := s.calls[id].session;
      State(if Lookup(s.chains, session) == Some(id) then s.chains - {session} else s.chains,
        s.calls[id := s.calls[id].(cleaned := true)])
  }

  // ---- What every interleaving keeps ----

  predicate IsDone(s: State, id: nat) {
    id < |s.calls| && s.calls[id].phase.Settled?
  }

  predicate Before(s: State, i: nat, j: nat) {
    i < j < |s.calls| && s.calls[i].session == s.calls[j].session
  }

  /** A task starts only when every earlier task of its session has settled. */
  ghost predicate InOrder(s: State) {
    forall i: nat, j: nat :: Before(s, i, j) && s.calls[j].phase != Waiting ==> IsDone(s, i)
  }

  /** A promise is chained behind its session's latest one, or behind none when all
      of them have settled. */
  ghost predicate Chained(s: State) {
    forall j: nat :: j < |s.calls| ==>
      match s.calls[j].prior
      case None => forall i: nat :: Before(s, i, j) ==> IsDone(s, i)
      case Some(p) => Before(s, p, j) && forall k: nat :: Before(s, k, j) ==> k <= p
  }

  /** The map holds each session's latest promise until that one has cleaned up,
      and a session without an entry has nothing left to run. */
  ghost predicate Mapped(s: State) {
    && (forall session :: session in s.chains ==>
      s.chains[session] < |s.calls| && s.calls[s.chains[session]].session == session
      && !s.calls[s.chains[session]].cleaned)
    && (forall session, k: nat :: session in s.chains && k < |s.calls| && s.calls[k].session == session ==>
      k <= s.chains[session])
    && (forall k: nat :: k < |s.calls| && s.calls[k].session !in s.chains ==> IsDone(s, k))
  }

  ghost predicate Sound(s: State) {
    InOrder(s) && Chained(s) && Mapped(s)
  }

  lemma SubmitSound(s: State, session: string)
    requires Sound(s)
    ensures Sound(Step(s, Submit(session)))
  {
    var t := Step(s, Submit(session));
    assert forall i: nat :: i < |s.calls| ==> t.calls[i] == s.calls[i];
    assert forall i: nat :: IsDone(s, i) ==> IsDone(t, i);
    assert forall i: nat, j: nat :: j < |s.calls| ==> (Before(t, i, j) <==> Before(s, i, j));
    forall j: nat | j < |t.calls|
      ensures match t.calls[j].prior
        case None => forall i: nat :: Before(t, i, j) ==> IsDone(t, i)
        case Some(p) => Before(t, p, j) && forall k: nat :: Before(t, k, j) ==> k <= p
    {
      if j < |s.calls| {
        assert t.calls[j] == s.calls[j];
      }
    }
  }

  lemma StartSound(s: State, id: nat)
    requires Sound(s) && Startable(s, id)
    ensures Sound(Step(s, Start(id)))
  {
    var t := Step(s, Start(id));
    assert forall i: nat, j: nat :: Before(t, i, j) <==> Before(s, i, j);
    assert forall i: nat :: IsDone(t, i) <==> IsDone(s, i);
    forall i: nat | Before(s, i, id)
      ensures IsDone(s, i)
    {
      if s.calls[id].prior.Some? {
        var p := s.calls[id].prior.value;
        assert Before(s, p, id);
        assert i == p || Before(s, i, p);
      }
    }
  }

  lemma FinishSound(s: State, id: nat, ok: bool)
    requires Sound(s) && Enabled(s, Finish(id, ok))
    ensures Sound(Step(s, Finish(id, ok)))
  {
    var t := Step(s, Finish(id, ok));
    assert forall i: nat, j: nat :: Before(t, i, j) <==> Before(s, i, j);
    assert forall i: nat :: IsDone(s, i) ==> IsDone(t, i);
  }

  lemma CleanupSound(s: State, id: nat)
    requires Sound(s) && Enabled(s, Cleanup(id))
    ensures Sound(Step(s, Cleanup(id)))
  {
    var t := Step(s, Cleanup(id));
    assert forall i: nat, j: nat :: Before(t, i, j) <==> Before(s, i, j);
    assert forall i: nat :: IsDone(t, i) <==> IsDone(s, i);
    forall k: nat | k < |t.calls| && t.calls[k].session !in t.chains
      ensures IsDone(t, k)
    {
      if s.calls[k].session in s.chains {
        assert k == id || Before(s, k, id);
      }
    }
  }

  lemma StepSound(s: State, e: Event)
    requires Sound(s)
    ensures Sound(Step(s, e))
  {
    if Enabled(s, e) {
      match e
      case Submit(session) => SubmitSound(s, session);
      case Start(id) => StartSound(s, id);
      case Finish(id, ok) => FinishSound(s, id, ok);
      case Cleanup(id) => CleanupSound(s, id);
    }
  }

  lemma SoundAllAlong(run: seq<Event>, n: nat)
    requires n <= |run|
    ensures Sound(At(Step, IDLE, run, n))
  {
    var any := (s: State, e: Event) => true;
    var sound := (s: State) => Sound(s);
    forall s: State, e: Event | sound(s) && any(s, e)
      ensures sound(Step(s, e))
    {
      StepSound(s, e);
    }
    AllAlong(Step, any, sound, IDLE, run, n);
  }

  // ---- The serializer's promises ----

  /** Tasks of one session never overlap: for every interleaving, at most one runs. */
  lemma NeverOverlap(run: seq<Event>, n: nat, i: nat, j: nat)
    requires n <= |run|
    requires var s := At(Step, IDLE, run, n);
      i < |s.calls| && j < |s.calls| && s.calls[i].session == s.calls[j].session
      && s.calls[i].phase == Running && s.calls[j].phase == Running
    ensures i == j
  {
    SoundAllAlong(run, n);
    var s := At(Step, IDLE, run, n);
    assert i < j ==> Before(s, i, j);
    assert j < i ==> Before(s, j, i);
  }

  /** They run in submission order, also behind a failure: whenever a task has
      started, every task submitted before it for that session has settled. */
  lemma SubmissionOrder(run: seq<Event>, n: nat, i: nat, j: nat)
    requires n <= |run|
    requires var s := At(Step, IDLE, run, n); Before(s, i, j) && s.calls[j].phase != Waiting
    ensures IsDone(At(Step, IDLE, run, n), i)
  {
    SoundAllAlong(run, n);
  }

  /** A map entry stays while any task of its session is unfinished, and is gone once
      all of them, and all their cleanups, are through. */
  lemma EntryLifetime(run: seq<Event>, n: nat, session: string)
    requires n <= |run|
    ensures var s := At(Step, IDLE, run, n);
      (exists k: nat :: k < |s.calls| && s.calls[k].session == session && !IsDone(s, k)) ==> session in s.chains
    ensures var s := At(Step, IDLE, run, n);
      (forall k: nat :: k < |s.calls| && s.calls[k].session == session ==> s.calls[k].cleaned) ==> session !in s.chains
  {
    SoundAllAlong(run, n);
  }

  /** Nothing wedges: while a session has unfinished tasks, the earliest of them is
      running or can start. */
  lemma {:induction false} NeverWedged(s: State, k: nat) returns (first: nat)
    requires Sound(s) && k < |s.calls| && !IsDone(s, k)
    ensures first <= k && s.calls[first].session == s.calls[k].session
    ensures s.calls[first].phase == Running || Startable(s, first)
    decreases k
  {
    var prior := s.calls[k].prior;
    if s.calls[k].phase == Waiting && prior.Some? && !IsDone(s, prior.value) {
      assert Before(s, prior.value, k);
      first := NeverWedged(s, prior.value);
    } else {
      assert prior.Some? ==> Before(s, prior.value, k);
      first := k;
    }
  }

  /** Once a session's tasks have settled, the cleanup of its latest call takes its entry
      away, and no other; the cleanup of an earlier one takes nothing. */
  lemma CleanupReclaims(s: State, id: nat)
    requires Sound(s) && Enabled(s, Cleanup(id))
    ensures var t, session := Step(s, Cleanup(id)), s.calls[id].session;
      && t.calls[id].cleaned && t.calls[id].phase == s.calls[id].phase
      && (forall other :: other != session ==> Lookup(t.chains, other) == Lookup(s.chains, other))
      && if exists k: nat :: Before(s, id, k) then Lookup(t.chains, session) == Lookup(s.chains, session)
         else session !in t.chains
  {
    var session := s.calls[id].session;
    if session in s.chains && s.chains[session] != id {
      assert Before(s, id, s.chains[session]);
    }
  }

  /** A submission waits behind the others; a start and an end move just their own call. */
  lemma CallsMove(s: State, session: string, id: nat, ok: bool)
    ensures var t := Step(s, Submit(session));
      && |t.calls| == |s.calls| + 1 && t.calls[..|s.calls|] == s.calls
      && t.calls[|s.calls|].session == session && t.calls[|s.calls|].phase == Waiting && !t.calls[|s.calls|].cleaned
    ensures Startable(s, id) ==>
      Step(s, Start(id)).chains == s.chains && Step(s, Start(id)).calls == s.calls[id := s.calls[id].(phase := Running)]
    ensures Enabled(s, Finish(id, ok)) ==>
      && Step(s, Finish(id, ok)).chains == s.chains
      && Step(s, Finish(id, ok)).calls == s.calls[id := s.calls[id].(phase := Settled(ok))]
  {}

  // ---- Draining ----

  /** Steps that a call still has to take: to start, to end, to clean up. */
  function StepsOf(c: Call): nat {
    match c.phase
    case Waiting => 3
    case Running => 2
    case Settled(_) => if c.cleaned then 0 else 1
  }

  function Work(calls: seq<Call>): nat {
    if calls == [] then 0 else Work(calls[..|calls| - 1]) + StepsOf(calls[|calls| - 1])
  }

  lemma {:induction false} WorkMoves(calls: seq<Call>, id: nat, c: Call)
    requires id < |calls|
    ensures Work(calls[id := c]) + StepsOf(calls[id]) == Work(calls) + StepsOf(c)
  {
    var front := calls[..|calls| - 1];
    if id < |calls| - 1 {
      WorkMoves(front, id, c);
      assert calls[id := c][..|calls| - 1] == front[id := c];
    } else {
      assert calls[id := c][..|calls| - 1] == front;
    }
  }

  lemma {:induction false} SomeWork(calls: seq<Call>) returns (id: nat)
    requires Work(calls) > 0
    ensures id < |calls| && StepsOf(calls[id]) > 0
  {
    if StepsOf(calls[|calls| - 1]) > 0 {
      id := |calls| - 1;
    } else {
      id := SomeWork(calls[..|calls| - 1]);
    }
  }

  lemma {:induction false} NoWork(calls: seq<Call>)
    requires Work(calls) == 0
    ensures forall k :: 0 <= k < |calls| ==> StepsOf(calls[k]) == 0
  {
    if calls != [] {
      NoWork(calls[..|calls| - 1]);
    }
  }

  /** While there is work, some call can take a step without a submission. */
  lemma NextStep(s: State) returns (e: Event)
    requires Sound(s) && Work(s.calls) > 0
    ensures !e.Submit? && Work(Step(s, e).calls) < Work(s.calls) && |Step(s, e).calls| == |s.calls|
  {
    var id := SomeWork(s.calls);
    if !IsDone(s, id) {
      var first := NeverWedged(s, id);
      e := if s.calls[first].phase == Running then Finish(first, true) else Start(first);
      WorkMoves(s.calls, first, s.calls[first].(phase := if e.Start? then Running else Settled(true)));
    } else {
      e := Cleanup(id);
      WorkMoves(s.calls, id, s.calls[id].(cleaned := true));
    }
  }

  /** Whatever has happened, the tasks that are left can all run to their ends, and once
      they and their cleanups are through the map is empty. */
  lemma {:induction false} AlwaysDrains(s: State) returns (run: seq<Event>)
    requires Sound(s)
    ensures forall e :: e in run ==> !e.Submit?
    ensures var t := End(Step, s, run);
      t.chains == map[] && |t.calls| == |s.calls| && forall k: nat :: k < |t.calls| ==> IsDone(t, k)
    decreases Work(s.calls)
  {
    if Work(s.calls) == 0 {
      run := [];
      NoWork(s.calls);
      assert forall k: nat :: k < |s.calls| ==> s.calls[k].cleaned;
      assert s.chains.Keys == {};
    } else {
      var e := NextStep(s);
      StepSound(s, e);
      var rest := AlwaysDrains(Step(s, e));
      run := [e] + rest;
      AtAppend(Step, s, [e], rest, |rest|);
      assert End(Step, s, [e]) == Step(At(Step, s, [e], 0), e);
    }
  }

  // ---- The module-level map ----

  class SessionTurnChains {
    var chains: map<string, nat>
    var calls: seq<Call>

    constructor ()
      ensures View() == IDLE
    {
      chains, calls := map[], [];
    }

    ghost function View(): State
      reads this
    {
      State(chains, calls)
    }

    /** Returns the number of the promise it installs. */
    method SerializePerSession(session: string) returns (next: nat)
      modifies this
      ensures View() == Step(old(View()), Submit(session))
      ensures next == |old(calls)| && calls[next].session == session
    {
      var prior := Lookup(chains, session);
      next := |calls|;
      calls := calls + [Call(session, prior, Waiting, false)];
      chains := chains[session := next];
    }

    method Run(id: nat)
      requires Enabled(View(), Start(id))
      modifies `calls
      ensures View() == Step(old(View()), Start(id))
    {
      calls := calls[id := calls[id].(phase := Running)];
    }

    method Settle(id: nat, ok: bool)
      requires Enabled(View(), Finish(id, ok))
      modifies `calls
      ensures View() == Step(old(View()), Finish(id, ok))
    {
      calls := calls[id := calls[id].(phase := Settled(ok))];
    }

    /** Reclaims the slot, unless a newer promise has taken it. */
    method CleanUp(id: nat)
      requires Enabled(View(), Cleanup(id))
      modifies this
      ensures View() == Step(old(View()), Cleanup(id))
    {
      var session := calls[id].session;
      if session in chains && chains[session] == id {
        chains := chains - {session};
      }
      calls := calls[id := calls[id].(cleaned := true)];
    }
  }
}
