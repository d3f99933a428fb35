/** The reconnect cursor of the drive command's event stream, under pivots,
    disconnects and mid-turn compactions. */
module DriveSse {
  import opened Prelude
  import opened Runs

  /** An event on a session's bus; its sequence number is its position. A workflow
      event is rendered, but the event parser does not know it. */
  datatype Event = Plain | Compacted(child: string) | Workflow

  /** The one open connection: whose bus it follows, and what it receives next. */
  datatype Conn = Conn(session: string, next: nat)

  /** `log` and `workflows` record what has been rendered. */
  datatype State = State(active: string, cursor: Option<nat>, cursorSession: string, conn: Option<Conn>,
    buses: map<string, seq<Event>>, log: seq<(string, nat)>, workflows: seq<(string, nat)>)

  datatype Action = Publish(session: string, event: Event) | Connect | Deliver | Disconnect | UserPivot(session: string)

  function Bus(s: State, session: string): seq<Event> {
    if session in s.buses then s.buses[session] else []
  }

  /** Where a connection resumes: behind the cursor, or at the start without one. */
  function Resume(cursor: Option<nat>): nat {
    if cursor.None? then 0 else cursor.value + 1
  }

  // ---- The manager ----

  function Pivot(s: State, session: string): State {
    if session == "" || session == s.active then s
    else s.(active := session, cursor := None, cursorSession := session)
  }

  /** The cursor first, and only for a connection that is not superseded; then the
      rendering; then the pivot that the event asks for. */
  function Ingest(s: State, event: Event, number: nat, connSession: string): State {
    var advanced := if connSession != s.active then s else s.(cursor := Some(number));
    var rendered := advanced.(log := advanced.log + [(connSession, number)]);
    if event.Compacted? then Pivot(rendered, event.child) else rendered
  }

  function Step(s: State, a: Action): State {
    match a
    case Publish(session, event) => s.(buses := s.buses[session := Bus(s, session) + [event]])
    case Connect => if s.conn.Some? then s else s.(conn := Some(Conn(s.active, Resume(s.cursor))))
    case Disconnect => s.(conn := None)
    case UserPivot(session) => Pivot(s, session)
    case Deliver =>
      if s.conn.None? || s.conn.value.next >= |Bus(s, s.conn.value.session)| then s else
      var c := s.conn.value;
      var event := Bus(s, c.session)[c.next];
      var received := s.(conn := Some(Conn(c.session, c.next + 1)));
      if event.Workflow? then received.(workflows := received.workflows + [(c.session, c.next)])
      else Ingest(received, event, c.next, c.session)
  }

  function Start(session: string): State {
    State(session, None, session, None, map[], [], [])
  }

  /** The pivot that an action asks for. */
  function PivotTarget(s: State, a: Action): Option<string> {
    match a
    case UserPivot(session) => Some(session)
    case Deliver =>
      if s.conn.None? || s.conn.value.next >= |Bus(s, s.conn.value.session)| then None
      else
        var event := Bus(s, s.conn.value.session)[s.conn.value.next];
        if event.Compacted? then Some(event.child) else None
    case _ => None
  }

  /** What has been published to a session, in order. */
  function Published(run: seq<Action>, session: string, n: nat): seq<Event>
    requires n <= |run|
  {
    if n == 0 then [] else
    match run[n - 1]
    case Publish(to, event) =>
      if to == session then Published(run, session, n - 1) + [event] else Published(run, session, n - 1)
    case _ => Published(run, session, n - 1)
  }

  lemma {:induction false} BusesHold(first: string, run: seq<Action>, session: string, n: nat)
    requires n <= |run|
    ensures Bus(At(Step, Start(first), run, n), session) == Published(run, session, n)
  {
    if n > 0 {
      BusesHold(first, run, session, n - 1);
    }
  }

  // ---- What has been rendered ----

  /** The sequence numbers rendered from one session's bus, in order. */
  function Rendered(log: seq<(string, nat)>, session: string): seq<nat> {
    if log == [] then [] else
    var front, last := Rendered(log[..|log| - 1], session), log[|log| - 1];
    if last.0 == session then front + [last.1] else front
  }

  /** The events of a bus that the parser knows, below `n`. */
  function Decoded(bus: seq<Event>, n: nat): seq<nat>
    requires n <= |bus|
  {
    if n == 0 then [] else
    var front := Decoded(bus, n - 1);
    if bus[n - 1].Workflow? then front else front + [n - 1]
  }

  /** Exactly the known events below `n`, each once and in order. */
  lemma {:induction false} DecodedExact(bus: seq<Event>, n: nat)
    requires n <= |bus|
    ensures forall i: nat :: i in Decoded(bus, n) <==> i < n && !bus[i].Workflow?
    ensures forall j, k :: 0 <= j < k < |Decoded(bus, n)| ==> Decoded(bus, n)[j] < Decoded(bus, n)[k]
  {
    if n > 0 {
      DecodedExact(bus, n - 1);
      var front := Decoded(bus, n - 1);
      assert forall j :: 0 <= j < |front| ==> front[j] in front;
    }
  }

  lemma {:induction false} DecodedGrows(bus: seq<Event>, more: seq<Event>, n: nat)
    requires n <= |bus|
    ensures Decoded(bus + more, n) == Decoded(bus, n)
  {
    if n > 0 {
      DecodedGrows(bus, more, n - 1);
    }
  }

  lemma RenderedMore(log: seq<(string, nat)>, entry: (string, nat), session: string)
    ensures Rendered(log + [entry], session)
      == if entry.0 == session then Rendered(log, session) + [entry.1] else Rendered(log, session)
  {
    assert (log + [entry])[..|log|] == log;
  }

  /** What has been rendered of a session is its bus up to `n`, nothing twice and
      nothing left out. */
  ghost predicate RenderedTo(s: State, session: string, n: nat) {
    n <= |Bus(s, session)| && Rendered(s.log, session) == Decoded(Bus(s, session), n)
  }

  ghost predicate Tracked(s: State, session: string) {
    exists n: nat :: RenderedTo(s, session, n)
  }

  /** The cursor is on a known event, and everything up to it has been rendered. */
  ghost predicate CursorFits(s: State) {
    && RenderedTo(s, s.active, Resume(s.cursor))
    && (s.cursor.Some? ==> s.cursor.value < |Bus(s, s.active)| && !Bus(s, s.active)[s.cursor.value].Workflow?)
  }

  ghost predicate Consistent(s: State) {
    && s.cursorSession == s.active
    && CursorFits(s)
    && (s.conn.Some? ==> RenderedTo(s, s.conn.value.session, s.conn.value.next))
    && (forall session :: Tracked(s, session))
  }

  /** No pivot goes to another session of which something has been rendered: neither
      before the action nor by it. */
  ghost predicate ToUnseen(s: State, a: Action) {
    var target := PivotTarget(s, a);
    target.Some? && target.value != "" && target.value != s.active ==>
      Rendered(s.log, target.value) == [] && (a.Deliver? ==> target.value != s.conn.value.session)
  }

  lemma PublishKeeps(s: State, session: string, event: Event)
    requires Consistent(s)
    ensures Consistent(Step(s, Publish(session, event)))
  {
    var t := Step(s, Publish(session, event));
    forall other, n: nat | RenderedTo(s, other, n)
      ensures RenderedTo(t, other, n)
    {
      DecodedGrows(Bus(s, other), [event], n);
    }
    forall other
      ensures Tracked(t, other)
    {
      assert Tracked(s, other);
      var n: nat :| RenderedTo(s, other, n);
      assert RenderedTo(t, other, n);
    }
  }

  lemma SameRendered(s: State, t: State)
    requires t.buses == s.buses && t.log == s.log && forall session :: Tracked(s, session)
    ensures forall session :: Tracked(t, session)
  {
    forall session
      ensures Tracked(t, session)
    {
      assert Tracked(s, session);
      var n: nat :| RenderedTo(s, session, n);
      assert RenderedTo(t, session, n);
    }
  }

  lemma PivotKeeps(s: State, session: string)
    requires Consistent(s) && (session == "" || session == s.active || Rendered(s.log, session) == [])
    ensures Consistent(Pivot(s, session))
  {
    var t := Pivot(s, session);
    SameRendered(s, t);
    if s.conn.Some? {
      assert RenderedTo(s, s.conn.value.session, s.conn.value.next) ==>
        RenderedTo(t, s.conn.value.session, s.conn.value.next);
    }
  }

  /** There is an event to receive. */
  predicate Pending(s: State) {
    s.conn.Some? && s.conn.value.next < |Bus(s, s.conn.value.session)|
  }

  /** The state once the next event is received and rendered, before any pivot it
      asks for. */
  function Received(s: State): State
    requires Pending(s)
  {
    var c := s.conn.value;
    var received := s.(conn := Some(Conn(c.session, c.next + 1)));
    if Bus(s, c.session)[c.next].Workflow? then received.(workflows := received.workflows + [(c.session, c.next)])
    else
      received.(cursor := if c.session == s.active then Some(c.next) else s.cursor,
        log := s.log + [(c.session, c.next)])
  }

  lemma DeliverIs(s: State)
    ensures Step(s, Deliver) ==
      if !Pending(s) then s
      else if PivotTarget(s, Deliver).Some? then Pivot(Received(s), PivotTarget(s, Deliver).value)
      else Received(s)
  {}

  lemma ReceivedLog(s: State, session: string)
    requires Pending(s)
    ensures var c := s.conn.value;
      Rendered(Received(s).log, session) ==
        if session == c.session && !Bus(s, c.session)[c.next].Workflow? then Rendered(s.log, session) + [c.next]
        else Rendered(s.log, session)
  {
    RenderedMore(s.log, (s.conn.value.session, s.conn.value.next), session);
  }

  lemma ReceivedTracked(s: State, session: string)
    requires Pending(s) && Tracked(s, session)
    requires RenderedTo(s, s.conn.value.session, s.conn.value.next)
    ensures Tracked(Received(s), session)
    ensures RenderedTo(Received(s), s.conn.value.session, s.conn.value.next + 1)
  {
    var c := s.conn.value;
    ReceivedLog(s, session);
    ReceivedLog(s, c.session);
    assert RenderedTo(Received(s), c.session, c.next + 1);
    if session != c.session {
      var n: nat :| RenderedTo(s, session, n);
      assert RenderedTo(Received(s), session, n);
    }
  }

  lemma ReceivedCursor(s: State)
    requires Pending(s) && CursorFits(s) && RenderedTo(s, s.conn.value.session, s.conn.value.next)
    ensures CursorFits(Received(s))
  {
    var c := s.conn.value;
    ReceivedLog(s, s.active);
    if c.session == s.active && !Bus(s, c.session)[c.next].Workflow? {
      assert Received(s).cursor == Some(c.next);
      assert RenderedTo(Received(s), s.active, c.next + 1);
    } else {
      assert Received(s).cursor == s.cursor;
    }
  }

  lemma ReceiveKeeps(s: State)
    requires Consistent(s) && Pending(s)
    ensures Consistent(Received(s))
  {
    forall session
      ensures Tracked(Received(s), session)
    {
      ReceivedTracked(s, session);
    }
    ReceivedTracked(s, s.active);
    ReceivedCursor(s);
  }

  lemma DeliverKeeps(s: State)
    requires Consistent(s) && ToUnseen(s, Deliver)
    ensures Consistent(Step(s, Deliver))
  {
    DeliverIs(s);
    if Pending(s) {
      ReceiveKeeps(s);
      var target := PivotTarget(s, Deliver);
      if target.Some? {
        ReceivedLog(s, target.value);
        PivotKeeps(Received(s), target.value);
      }
    }
  }

  lemma StepKeeps(s: State, a: Action)
    requires Consistent(s) && ToUnseen(s, a)
    ensures Consistent(Step(s, a))
  {
    match a
    case Publish(session, event) => PublishKeeps(s, session, event);
    case Connect => SameRendered(s, Step(s, a));
    case Disconnect => SameRendered(s, Step(s, a));
    case UserPivot(session) => PivotKeeps(s, session);
    case Deliver => DeliverKeeps(s);
  }

  lemma StartConsistent(session: string)
    ensures Consistent(Start(session))
  {
    forall other
      ensures Tracked(Start(session), other)
    {
      assert RenderedTo(Start(session), other, 0);
    }
  }

  lemma ConsistentFrom(start: State, run: seq<Action>, n: nat)
    requires n <= |run| && Consistent(start) && Allowed(Step, ToUnseen, start, run, n)
    ensures Consistent(At(Step, start, run, n))
  {
    var toUnseen := (s: State, a: Action) => ToUnseen(s, a);
    var consistent := (s: State) => Consistent(s);
    forall s: State, a: Action | consistent(s) && toUnseen(s, a)
      ensures consistent(Step(s, a))
    {
      StepKeeps(s, a);
    }
    AllAlong(Step, toUnseen, consistent, start, run, n);
  }

  predicate Ascending(numbers: seq<nat>) {
    forall j, k :: 0 <= j < k < |numbers| ==> numbers[j] < numbers[k]
  }

  lemma CursorIsLast(s: State)
    requires Consistent(s)
    ensures s.cursor ==
      var rendered := Rendered(s.log, s.active);
      if rendered == [] then None else Some(rendered[|rendered| - 1])
  {}

  lemma RenderedExactly(s: State, session: string) returns (upTo: nat)
    requires Consistent(s)
    ensures upTo <= |Bus(s, session)|
    ensures forall i: nat :: i in Rendered(s.log, session) <==> i < upTo && !Bus(s, session)[i].Workflow?
    ensures Ascending(Rendered(s.log, session))
  {
    assert Tracked(s, session);
    upTo :| RenderedTo(s, session, upTo);
    DecodedExact(Bus(s, session), upTo);
  }

  /** The open connection follows another session than the active one. */
  predicate Superseded(s: State) {
    s.conn.Some? && s.conn.value.session != s.active
  }

  /** What a superseded connection still receives never moves the cursor; at most it
      pivots again, which clears it. */
  lemma ResidualIgnored(s: State)
    requires Superseded(s)
    ensures Step(s, Deliver).cursor == if Step(s, Deliver).active == s.active then s.cursor else None
  {}

  /** Over every run whose pivots go to sessions of which nothing has been rendered, the
      cursor is the last sequence number rendered from the active session's bus, or null
      if there is none; and of every session the known events are rendered in order,
      none twice and none skipped. What a superseded connection receives next leaves the
      cursor alone, or clears it with a pivot. */
  lemma CursorAndRendering(first: string, run: seq<Action>, n: nat, session: string) returns (upTo: nat)
    requires n <= |run| && Allowed(Step, ToUnseen, Start(first), run, n)
    ensures var s := At(Step, Start(first), run, n);
      var rendered := Rendered(s.log, s.active);
      s.cursorSession == s.active
      && s.cursor == if rendered == [] then None else Some(rendered[|rendered| - 1])
    ensures var s := At(Step, Start(first), run, n);
      && upTo <= |Bus(s, session)|
      && (forall i: nat :: i in Rendered(s.log, session) <==> i < upTo && !Bus(s, session)[i].Workflow?)
      && Ascending(Rendered(s.log, session))
    ensures var s := At(Step, Start(first), run, n);
      Superseded(s) ==> Step(s, Deliver).cursor == if Step(s, Deliver).active == s.active then s.cursor else None
  {
    StartConsistent(first);
    ConsistentFrom(Start(first), run, n);
    if Superseded(At(Step, Start(first), run, n)) {
      ResidualIgnored(At(Step, Start(first), run, n));
    }
    CursorIsLast(At(Step, Start(first), run, n));
    upTo := RenderedExactly(At(Step, Start(first), run, n), session);
  }

  // ---- Pivots back ----

  /** Of no session anything has been rendered twice or out of order. */
  ghost predicate NoRepeats(s: State) {
    forall session :: Ascending(Rendered(s.log, session))
  }

  lemma ConsistentAscends(s: State)
    requires Consistent(s)
    ensures NoRepeats(s)
  {
    forall session
      ensures Ascending(Rendered(s.log, session))
    {
      var _ := RenderedExactly(s, session);
    }
  }

  /** One more action, whatever it is, renders nothing twice. */
  lemma OneMoreAction(s: State, a: Action)
    requires Consistent(s)
    ensures NoRepeats(Step(s, a))
  {
    if a.Deliver? && Pending(s) {
      DeliverIs(s);
      ReceiveKeeps(s);
      ConsistentAscends(Received(s));
      assert Step(s, a).log == Received(s).log;
    } else {
      ConsistentAscends(s);
      assert Step(s, a).log == s.log;
    }
  }

  /** What follows renders nothing twice: for every run whose pivots go to sessions of
      which nothing has been rendered, and any action behind it. */
  ghost predicate GoesOnWell(s: State) {
    forall run: seq<Action>, a: Action {:trigger Then(s, run, a)} ::
      Allowed(Step, ToUnseen, s, run, |run|) ==> NoRepeats(Then(s, run, a))
  }

  function Then(s: State, run: seq<Action>, a: Action): State {
    Step(End(Step, s, run), a)
  }

  lemma ConsistentGoesOnWell(s: State)
    requires Consistent(s)
    ensures GoesOnWell(s)
  {
    forall run: seq<Action>, a: Action | Allowed(Step, ToUnseen, s, run, |run|)
      ensures NoRepeats(Then(s, run, a))
    {
      ConsistentFrom(s, run, |run|);
      OneMoreAction(End(Step, s, run), a);
    }
  }

  /** The state `t` is `s` with a connection to the active session in front of event
      `n`, and nothing but workflow events rendered in between. */
  ghost predicate Follows(s: State, t: State, n: nat) {
    t == s.(conn := Some(Conn(s.active, n)), workflows := t.workflows)
  }

  /** Receiving an event that the parser does not know. */
  lemma UnknownReceived(s: State, t: State, n: nat)
    requires Follows(s, t, n) && n < |Bus(s, s.active)| && Bus(s, s.active)[n].Workflow?
    ensures ToUnseen(t, Deliver) && Follows(s, Step(t, Deliver), n + 1)
  {}

  lemma Reopened(s: State) returns (run: seq<Action>)
    requires s.cursor.None?
    ensures Allowed(Step, ToUnseen, s, run, |run|) && Follows(s, End(Step, s, run), 0)
  {
    run := [Disconnect, Connect];
    assert At(Step, s, run, 1) == s.(conn := None);
    assert At(Step, s, run, 2) == s.(conn := Some(Conn(s.active, 0)));
  }

  lemma ReceivesOn(s: State, run: seq<Action>, n: nat) returns (on: seq<Action>)
    requires Allowed(Step, ToUnseen, s, run, |run|) && Follows(s, End(Step, s, run), n)
    requires n < |Bus(s, s.active)| && Bus(s, s.active)[n].Workflow?
    ensures Allowed(Step, ToUnseen, s, on, |on|) && Follows(s, End(Step, s, on), n + 1)
  {
    on := run + [Deliver];
    UnknownReceived(s, End(Step, s, run), n);
    OneMore(Step, ToUnseen, s, run, Deliver);
  }

  /** Behind a pivot, hanging up, connecting again and receiving `n` events: they are the
      new session's from the start, and as long as the parser knows none of them, nothing
      else happens. */
  lemma {:induction false} ReopenReceives(s: State, n: nat) returns (run: seq<Action>)
    requires s.cursor.None? && n <= |Bus(s, s.active)|
    requires forall i :: 0 <= i < n ==> Bus(s, s.active)[i].Workflow?
    ensures Allowed(Step, ToUnseen, s, run, |run|) && Follows(s, End(Step, s, run), n)
    decreases n
  {
    if n == 0 {
      run := Reopened(s);
    } else {
      var front := ReopenReceives(s, n - 1);
      run := ReceivesOn(s, front, n - 1);
    }
  }

  /** The first event of a bus that the parser knows, if it knows one below `n`. */
  lemma {:induction false} FirstKnown(bus: seq<Event>, n: nat) returns (first: nat)
    requires n <= |bus| && Decoded(bus, n) != []
    ensures first < n && !bus[first].Workflow? && forall i :: 0 <= i < first ==> bus[i].Workflow?
  {
    if Decoded(bus, n - 1) != [] {
      first := FirstKnown(bus, n - 1);
    } else {
      first := n - 1;
      DecodedExact(bus, n - 1);
    }
  }

  lemma RenderedAgain(s: State)
    requires Pending(s) && !Bus(s, s.conn.value.session)[s.conn.value.next].Workflow?
    requires s.conn.value.next in Rendered(s.log, s.conn.value.session)
    ensures !Ascending(Rendered(Step(s, Deliver).log, s.conn.value.session))
  {
    var session, next := s.conn.value.session, s.conn.value.next;
    DeliverIs(s);
    ReceivedLog(s, session);
    assert Step(s, Deliver).log == Received(s).log;
    var before := Rendered(s.log, session);
    var j :| 0 <= j < |before| && before[j] == next;
    assert (before + [next])[j] >= (before + [next])[|before|];
  }

  /** A return to a session renders its first known event once more. */
  lemma ReturnReplays(s: State, session: string) returns (run: seq<Action>)
    requires Consistent(s) && session != "" && session != s.active && Rendered(s.log, session) != []
    ensures Allowed(Step, ToUnseen, Pivot(s, session), run, |run|)
    ensures !Ascending(Rendered(Then(Pivot(s, session), run, Deliver).log, session))
  {
    assert Tracked(s, session);
    var n: nat :| RenderedTo(s, session, n);
    var first := FirstKnown(Bus(s, session), n);
    DecodedExact(Bus(s, session), n);
    run := ReopenReceives(Pivot(s, session), first);
    RenderedAgain(End(Step, Pivot(s, session), run));
  }

  /** A pivot to another session keeps everything that follows free of repeats exactly
      when nothing of that session has been rendered. */
  lemma PivotSafeIff(s: State, session: string)
    requires Consistent(s) && session != "" && session != s.active
    ensures GoesOnWell(Pivot(s, session)) <==> Rendered(s.log, session) == []
  {
    if Rendered(s.log, session) == [] {
      PivotKeeps(s, session);
      ConsistentGoesOnWell(Pivot(s, session));
    } else {
      var run := ReturnReplays(s, session);
      assert !NoRepeats(Then(Pivot(s, session), run, Deliver));
    }
  }

  // ---- Reconnects ----

  /** A reconnect to the active session delivers an event that was received before once
      more exactly when the parser knows neither it nor anything received behind it. */
  lemma ReconnectRedelivers(s: State, number: nat)
    requires Consistent(s) && s.conn.Some? && s.conn.value.session == s.active && number < s.conn.value.next
    ensures var t := Step(Step(s, Disconnect), Connect);
      t.conn.value.next <= number
      <==> forall i :: number <= i < s.conn.value.next ==> Bus(s, s.active)[i].Workflow?
  {
    var bus, next, resume := Bus(s, s.active), s.conn.value.next, Resume(s.cursor);
    DecodedExact(bus, resume);
    DecodedExact(bus, next);
    assert Decoded(bus, resume) == Decoded(bus, next);
    forall i: nat | resume <= i < next
      ensures bus[i].Workflow?
    {
      assert i !in Decoded(bus, resume);
    }
    if s.cursor.Some? {
      assert s.cursor.value in Decoded(bus, resume);
    }
  }

  // ---- The manager as an object ----

  class DriveSseManager {
    var activeSessionId: string
    var cursor: Option<nat>
    var cursorSession: string
    var connection: Option<Conn>
    var connectionCount: nat
    /** Whether the connection has been told to end. */
    var aborted: bool
    ghost var log: seq<(string, nat)>
    ghost var workflows: seq<(string, nat)>

    constructor (initialSessionId: string)
      ensures View(map[]) == Start(initialSessionId) && connectionCount == 0
    {
      activeSessionId, cursor, cursorSession, connection := initialSessionId, None, initialSessionId, None;
      connectionCount, aborted := 0, false;
      log, workflows := [], [];
    }

    ghost function View(buses: map<string, seq<Event>>): State
      reads this
    {
      State(activeSessionId, cursor, cursorSession, connection, buses, log, workflows)
    }

    method PivotTo(newSessionId: string)
      modifies this
      ensures forall buses: map<string, seq<Event>> :: View(buses) == Pivot(old(View(buses)), newSessionId)
      ensures newSessionId != "" && newSessionId != old(activeSessionId) ==> aborted
    {
      if newSessionId == "" || newSessionId == activeSessionId {
        return;
      }
      activeSessionId := newSessionId;
      cursor := None;
      cursorSession := newSessionId;
      aborted := true;
    }

    method AdvanceCursor(number: nat, connSessionId: string)
      modifies `cursor
      ensures cursor == if connSessionId == activeSessionId then Some(number) else old(cursor)
    {
      if connSessionId != activeSessionId {
        return;
      }
      cursor := Some(number);
    }

    method IngestEvent(event: Event, number: nat, connSessionId: string)
      modifies this
      ensures forall buses: map<string, seq<Event>> ::
        View(buses) == Ingest(old(View(buses)), event, number, connSessionId)
    {
      AdvanceCursor(number, connSessionId);
      log := log + [(connSessionId, number)];
      if event.Compacted? {
        PivotTo(event.child);
      }
    }

    /** One turn of the loop opens a connection against the session then active. */
    method Open()
      requires connection.None?
      modifies this
      ensures forall buses: map<string, seq<Event>> :: View(buses) == Step(old(View(buses)), Connect)
      ensures connectionCount == old(connectionCount) + 1 && !aborted
    {
      connection := Some(Conn(activeSessionId, Resume(cursor)));
      connectionCount := connectionCount + 1;
      aborted := false;
    }

    /** The drain loop hands on what the connection receives next. */
    method Receive(bus: seq<Event>)
      requires connection.Some? && connection.value.next < |bus|
      modifies this
      ensures forall buses: map<string, seq<Event>> :: Bus(old(View(buses)), old(connection).value.session) == bus ==>
        View(buses) == Step(old(View(buses)), Deliver)
    {
      var c := connection.value;
      connection := Some(Conn(c.session, c.next + 1));
      if bus[c.next].Workflow? {
        workflows := workflows + [(c.session, c.next)];
      } else {
        IngestEvent(bus[c.next], c.next, c.session);
      }
    }
  }
}
